/** The scheduler: an ordered collection of shell tasks, a launch rule run on
    every pulse, the status listing, and the loading and saving of the task
    configuration file. */
module Scheduler {
  import opened Fmt
  import opened Shells
  import opened TaskConfig

  /** The configured fields of each task, in collection order. */
  function ConfigsOf(ts: seq<Shell>): (r: seq<ShellConfig>)
    ensures |r| == |ts|
    ensures forall i :: 0 <= i < |ts| ==> r[i] == ts[i].Config()
  {
    seq(|ts|, i requires 0 <= i < |ts| => ts[i].Config())
  }

  /** TaskServer. Go's container/list becomes a sequence whose index 0 is the front. */
  class TaskServer {
    var tasks: seq<Shell>

    constructor ()
      ensures tasks == []
    {
      tasks := [];
    }

    /** The status line of every task, front first. */
    method Tasks() returns (reply: seq<string>)
      ensures reply == Statuses(tasks)
      ensures |reply| == |tasks|
      ensures forall k :: 0 <= k < |tasks| ==> reply[k] == tasks[k].String()
    {
      reply := [];
      var i := 0;
      while i < |tasks|
        invariant 0 <= i <= |tasks|
        invariant reply == Statuses(tasks[..i])
      {
        assert tasks[..i + 1][..i] == tasks[..i];
        reply := reply + [tasks[i].String()];
        i := i + 1;
      }
      assert tasks[..i] == tasks;
      forall k | 0 <= k < |tasks|
        ensures reply[k] == tasks[k].String()
      {
        StatusesAt(tasks, k);
      }
    }

    /** One pulse. fired[k] says whether task k's tick channel had a value
        ready; the result lists the tasks a goroutine is started for. A task
        is launched exactly when its tick fired and it is not running, and
        the tasks are visited in collection order. */
    method Pulse(fired: seq<bool>) returns (launched: seq<nat>)
      requires |fired| == |tasks|
      ensures forall k: nat :: k in launched <==> k < |tasks| && fired[k] && !tasks[k].IsRunning()
      ensures forall j, k :: 0 <= j < k < |launched| ==> launched[j] < launched[k]
    {
      launched := [];
      var i := 0;
      while i < |tasks|
        invariant 0 <= i <= |tasks|
        invariant forall k: nat :: k in launched <==> k < i && fired[k] && !tasks[k].IsRunning()
        invariant forall j :: 0 <= j < |launched| ==> launched[j] < i
        invariant forall j, k :: 0 <= j < k < |launched| ==> launched[j] < launched[k]
      {
        if fired[i] && !tasks[i].IsRunning() {
          launched := launched + [i];
        }
        i := i + 1;
      }
    }

    /** One pass of the read loop: stop with the error of a failed read, a
        blank line or a line that fails to scan; skip a comment; otherwise
        push a new task built from the scanned line to the front. */
    method LoadLine(rs: seq<Read>, i: nat) returns (halt: Option<LoadError>)
      requires i < |rs|
      modifies this`tasks
      ensures StepsOf(rs)[i].Halt? ==> halt == Some(StepsOf(rs)[i].error) && tasks == old(tasks)
      ensures StepsOf(rs)[i].Skip? ==> halt == None && tasks == old(tasks)
      ensures StepsOf(rs)[i].Take? ==>
                && halt == None && |tasks| == |old(tasks)| + 1 && tasks == [tasks[0]] + old(tasks)
                && fresh(tasks[0]) && !tasks[0].running && tasks[0].Config() == ToConfig(StepsOf(rs)[i].rec)
    {
      StepsOfAt(rs, i);
      match rs[i]
      case Fault(e) =>
        return Some(ReadFailed(e));
      case Line(line) =>
        if line == [] {
          return Some(BlankLine);
        }
        if line[0] != '#' {
          var scanned := ScanLine(line);
          if scanned.Err? {
            return Some(ScanFailed(scanned.error));
          }
          var c := ToConfig(scanned.value);
          var t := new Shell(c.interval, c.tag, c.command, c.args, c.path);
          tasks := [t] + tasks;
        }
        return None;
    }

    /** LoadTasks over the file's reads (or the error opening it): each
        scanned task is pushed to the front, so the new tasks stand before
        the old ones in reverse file order; the first failure ends the load
        and keeps what was pushed. */
    method LoadTasks(file: Result<seq<Read>, string>) returns (err: Option<LoadError>)
      modifies this`tasks
      ensures file.Err? ==> err == Some(OpenFailed(file.error)) && tasks == old(tasks)
      ensures file.Ok? ==> err == LoadRecords(file.value).err
      ensures file.Ok? ==>
                ConfigsOf(tasks) == Reverse(MapSeq(ToConfig, LoadRecords(file.value).records)) + old(ConfigsOf(tasks))
      ensures |old(tasks)| <= |tasks| && tasks == tasks[..|tasks| - |old(tasks)|] + old(tasks)
      ensures fresh(tasks[..|tasks| - |old(tasks)|]) && Idle(tasks[..|tasks| - |old(tasks)|])
    {
      if file.Err? {
        assert tasks[..0] == [];
        return Some(OpenFailed(file.error));
      }
      err := LoadReads(file.value);
    }

    /** The read loop of LoadTasks over the reads of an opened file. */
    method LoadReads(rs: seq<Read>) returns (err: Option<LoadError>)
      modifies this`tasks
      ensures err == LoadRecords(rs).err
      ensures ConfigsOf(tasks) == Reverse(MapSeq(ToConfig, LoadRecords(rs).records)) + old(ConfigsOf(tasks))
      ensures |old(tasks)| <= |tasks| && tasks == tasks[..|tasks| - |old(tasks)|] + old(tasks)
      ensures fresh(tasks[..|tasks| - |old(tasks)|]) && Idle(tasks[..|tasks| - |old(tasks)|])
    {
      ghost var steps := StepsOf(rs);
      ghost var found := tasks;
      ghost var taken: seq<Record> := [];
      ghost var pushed: seq<Shell> := [];
      LoadedNothing(steps);
      err := None;
      var i := 0;
      while i < |rs| && err.None?
        invariant i <= |rs|
        invariant err.None? ==> LoadedSoFar(steps, i, taken)
        invariant err.Some? ==> RunFrom(steps, 0) == Loaded(taken, err)
        invariant tasks == pushed + found && Mirrors(pushed, taken)
        invariant fresh(pushed) && Idle(pushed)
      {
        var halt;
        ghost var added;
        halt, taken, added := LoadNext(rs, i, steps, taken, pushed, found);
        IdleAppend(added, pushed);
        pushed := added + pushed;
        err := halt;
        i := i + 1;
      }
      LoadedInto(rs, steps, err, taken, pushed, found);
      InFront(tasks, pushed, found);
      assert tasks[..|tasks| - |old(tasks)|] == pushed;
    }

    /** One pass of the read loop together with its account: taken holds the
        records read so far and pushed the tasks built from them, newest
        first, standing in front of the tasks found before the load. */
    method LoadNext(rs: seq<Read>, i: nat, ghost steps: seq<Step>, ghost taken: seq<Record>,
                    ghost pushed: seq<Shell>, ghost found: seq<Shell>)
        returns (halt: Option<LoadError>, ghost taken': seq<Record>, ghost added: seq<Shell>)
      requires i < |rs| && steps == StepsOf(rs) && LoadedSoFar(steps, i, taken)
      requires tasks == pushed + found && Mirrors(pushed, taken)
      modifies this`tasks
      ensures halt.Some? ==> RunFrom(steps, 0) == Loaded(taken', halt)
      ensures halt.None? ==> LoadedSoFar(steps, i + 1, taken')
      ensures tasks == added + pushed + found && Mirrors(added + pushed, taken')
      ensures |added| <= 1 && fresh(added) && Idle(added)
    {
      taken', added := taken, [];
      halt := LoadLine(rs, i);
      assert added + pushed == pushed;
      if halt.Some? {
        LoadedHalt(steps, i, taken);
      } else if steps[i].Skip? {
        LoadedSkip(steps, i, taken);
      } else {
        LoadedTake(steps, i, taken);
        MirrorsPush(tasks[0], pushed, taken, steps[i].rec);
        AppendAssoc([tasks[0]], pushed, found);
        taken' := taken + [steps[i].rec];
        added := [tasks[0]];
      }
    }

    /** SaveTasks: the header, then one line per task, front to back; or
        nothing at all and the error when the file cannot be created. */
    method SaveTasks(createFailure: Option<string>) returns (written: seq<string>, err: Option<string>)
      ensures createFailure.Some? ==> written == [] && err == createFailure
      ensures createFailure.None? ==> written == SaveFile(ConfigsOf(tasks)) && err == None
    {
      if createFailure.Some? {
        return [], createFailure;
      }
      written := Header;
      var i := 0;
      while i < |tasks|
        invariant 0 <= i <= |tasks|
        invariant written == Header + MapSeq(SaveLine, ConfigsOf(tasks[..i]))
      {
        assert ConfigsOf(tasks[..i + 1]) == ConfigsOf(tasks[..i]) + [tasks[i].Config()];
        written := written + [SaveLine(tasks[i].Config())];
        i := i + 1;
      }
      assert tasks[..i] == tasks;
      err := None;
    }
  }

  /** The status line of each task of ts, in order. */
  ghost function Statuses(ts: seq<Shell>): (r: seq<string>)
    reads ts
    ensures |r| == |ts|
  {
    if ts == [] then [] else Statuses(ts[..|ts| - 1]) + [ts[|ts| - 1].String()]
  }

  /** Line k of the listing is the status line of task k. */
  lemma {:induction false} StatusesAt(ts: seq<Shell>, k: nat)
    requires k < |ts|
    ensures Statuses(ts)[k] == ts[k].String()
  {
    var front := ts[..|ts| - 1];
    if k < |front| {
      StatusesAt(front, k);
      assert front[k] == ts[k];
    }
  }

  /** No task of ts is running. */
  ghost predicate Idle(ts: seq<Shell>)
    reads ts
  {
    forall k :: 0 <= k < |ts| ==> !ts[k].running
  }

  lemma {:induction false} IdleAppend(a: seq<Shell>, b: seq<Shell>)
    requires Idle(a) && Idle(b)
    ensures Idle(a + b)
  {
    forall k | 0 <= k < |a + b| ensures !(a + b)[k].running {
      if k >= |a| {
        assert (a + b)[k] == b[k - |a|];
      }
    }
  }

  lemma {:induction false} InFront<T>(all: seq<T>, front: seq<T>, back: seq<T>)
    requires all == front + back
    ensures |back| <= |all| && all[..|all| - |back|] == front && all == all[..|all| - |back|] + back
  {
  }

  /** pushed holds, front first, the tasks built from the records taken, newest first. */
  ghost predicate Mirrors(pushed: seq<Shell>, taken: seq<Record>)
    decreases |pushed|
  {
    && |pushed| == |taken|
    && (pushed != [] ==>
          && pushed[0].Config() == ToConfig(taken[|taken| - 1])
          && Mirrors(pushed[1..], taken[..|taken| - 1]))
  }

  lemma {:induction false} MirrorsPush(t: Shell, pushed: seq<Shell>, taken: seq<Record>, rec: Record)
    requires Mirrors(pushed, taken) && t.Config() == ToConfig(rec)
    ensures Mirrors([t] + pushed, taken + [rec])
  {
    assert ([t] + pushed)[1..] == pushed;
    assert (taken + [rec])[..|taken|] == taken;
  }

  lemma {:induction false} MirrorsAt(pushed: seq<Shell>, taken: seq<Record>)
    requires Mirrors(pushed, taken)
    ensures forall k :: 0 <= k < |pushed| ==> pushed[k].Config() == ToConfig(taken[|taken| - 1 - k])
  {
    if pushed != [] {
      var rest := taken[..|taken| - 1];
      MirrorsAt(pushed[1..], rest);
      forall k | 1 <= k < |pushed|
        ensures pushed[k].Config() == ToConfig(taken[|taken| - 1 - k])
      {
        assert pushed[k] == pushed[1..][k - 1];
        assert taken[|taken| - 1 - k] == rest[|rest| - 1 - (k - 1)];
      }
    }
  }

  /** Where the read loop ends: the error of the load, and the tasks pushed
      in front of the ones found. */
  lemma {:induction false} LoadedInto(rs: seq<Read>, steps: seq<Step>, err: Option<LoadError>,
                                      taken: seq<Record>, pushed: seq<Shell>, found: seq<Shell>)
    requires steps == StepsOf(rs) && Mirrors(pushed, taken)
    requires err.None? ==> LoadedSoFar(steps, |steps|, taken)
    requires err.Some? ==> RunFrom(steps, 0) == Loaded(taken, err)
    ensures err == LoadRecords(rs).err
    ensures ConfigsOf(pushed + found) == Reverse(MapSeq(ToConfig, LoadRecords(rs).records)) + ConfigsOf(found)
  {
    if err.None? {
      LoadedAll(steps, taken);
    }
    MirrorsConfigs(pushed, taken, found);
  }

  lemma {:induction false} MirrorsConfigs(pushed: seq<Shell>, taken: seq<Record>, found: seq<Shell>)
    requires Mirrors(pushed, taken)
    ensures ConfigsOf(pushed + found) == Reverse(MapSeq(ToConfig, taken)) + ConfigsOf(found)
  {
    MirrorsAt(pushed, taken);
    PushedConfigs(pushed, taken, found, ToConfig);
  }

  /** The tasks LoadTasks pushed, newest first, in front of the tasks it found. */
  lemma {:induction false} PushedConfigs(pushed: seq<Shell>, taken: seq<Record>, found: seq<Shell>, conv: Record -> ShellConfig)
    requires |pushed| == |taken|
    requires forall k :: 0 <= k < |pushed| ==> pushed[k].Config() == conv(taken[|taken| - 1 - k])
    ensures ConfigsOf(pushed + found) == Reverse(MapSeq(conv, taken)) + ConfigsOf(found)
  {
    var l, r := ConfigsOf(pushed + found), Reverse(MapSeq(conv, taken)) + ConfigsOf(found);
    var rev := Reverse(MapSeq(conv, taken));
    forall k | 0 <= k < |l|
      ensures l[k] == r[k]
    {
      if k < |taken| {
        assert r[k] == rev[k];
        assert (pushed + found)[k] == pushed[k];
      } else {
        assert r[k] == ConfigsOf(found)[k - |taken|];
        assert (pushed + found)[k] == found[k - |taken|];
      }
    }
  }

  /** Saving a server whose tasks the line format can carry and loading the
      file into a new server succeeds and gives the same tasks in reverse
      order: loading pushes each line to the front. */
  method SaveThenReload(server: TaskServer) returns (reloaded: TaskServer, err: Option<LoadError>)
    requires forall k :: 0 <= k < |server.tasks| ==> Saveable(server.tasks[k].Config())
    ensures err == None
    ensures ConfigsOf(reloaded.tasks) == Reverse(ConfigsOf(server.tasks))
  {
    ghost var saved := ConfigsOf(server.tasks);
    var written, _ := server.SaveTasks(None);
    SavedConfigsLoad(saved, written);
    reloaded, err := Reload(written);
  }

  /** Loading the lines of a file into a new server: the load's error, and
      the tasks of the loaded records, last line first. */
  method Reload(written: seq<string>) returns (reloaded: TaskServer, err: Option<LoadError>)
    ensures err == LoadRecords(AsReads(written)).err
    ensures ConfigsOf(reloaded.tasks) == Reverse(MapSeq(ToConfig, LoadRecords(AsReads(written)).records))
  {
    reloaded := new TaskServer();
    err := reloaded.LoadTasks(Ok(AsReads(written)));
    assert ConfigsOf([]) == [];
  }

  /** Loading a save of saveable tasks has no error and gives the tasks in reverse order. */
  lemma {:induction false} SavedConfigsLoad(cs: seq<ShellConfig>, written: seq<string>)
    requires forall i :: 0 <= i < |cs| ==> Saveable(cs[i])
    requires written == SaveFile(cs)
    ensures LoadRecords(AsReads(written)).err == None
    ensures Reverse(MapSeq(ToConfig, LoadRecords(AsReads(written)).records)) == Reverse(cs)
  {
    SaveThenLoad(cs);
    var recs := LoadRecords(AsReads(written)).records;
    assert recs == MapSeq(RecordOf, cs);
    assert MapSeq(ToConfig, recs) == cs;
  }
}
