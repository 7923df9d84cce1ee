/** The shell task: an external command with arguments and a working
    directory, run on its own interval, whose first line of output becomes a
    notice unless some notice already carries that message. */
module Shells {
  import opened Fmt
  import opened Mailbox

  /** The configured fields of a shell task, as a value: the interval in
      nanoseconds, the label, the command, the space-separated arguments and
      the working directory. */
  datatype ShellConfig = ShellConfig(interval: int, tag: string, command: string, args: string, path: string)

  /** What running the command reported: the error text when it could not be
      started or exited non-zero, and the standard output it captured. */
  datatype Outcome = Outcome(failure: Option<string>, output: string)

  /** No two notices carry the same message. */
  predicate DistinctMessages(ns: seq<Notice>)
  {
    forall i, j :: 0 <= i < j < |ns| ==> ns[i].message != ns[j].message
  }

  /** The alert queue after a run with outcome o by a task labelled tag.
      No message is lost, a successful run with output leaves its first line
      in the queue, and a queue without repeated messages keeps none. */
  function AfterRun(ns: seq<Notice>, tag: string, o: Outcome): (r: seq<Notice>)
    ensures forall m :: HasMessage(ns, m) ==> HasMessage(r, m)
    ensures o.failure.None? && o.output != [] ==> HasMessage(r, FirstLine(o.output))
    ensures DistinctMessages(ns) ==> DistinctMessages(r)
  {
    if o.failure.Some? || o.output == [] then ns
    else
      var line := FirstLine(o.output);
      if HasMessage(ns, line) then ns
      else
        var r := [NewNotice(tag, line)] + ns;
        assert r[0].message == line;
        assert forall i :: 0 <= i < |ns| ==> r[i + 1] == ns[i];
        r
  }

  /** A run adds at most one notice, at the front, and adds it exactly when
      the command succeeded with output whose first line no notice has yet. */
  lemma {:induction false} RunAddsAtMostOne(ns: seq<Notice>, tag: string, o: Outcome)
    ensures AfterRun(ns, tag, o) == ns
         || AfterRun(ns, tag, o) == [NewNotice(tag, FirstLine(o.output))] + ns
    ensures |AfterRun(ns, tag, o)| == |ns| + 1
        <==> o.failure.None? && o.output != [] && !HasMessage(ns, FirstLine(o.output))
  {
  }

  /** Two successful runs whose output starts with the same line store that
      line once, whatever the labels. */
  lemma {:induction false} RunTwiceSameLine(ns: seq<Notice>, tag1: string, tag2: string, o1: Outcome, o2: Outcome)
    requires o1.failure.None? && o1.output != []
    requires o2.failure.None? && o2.output != []
    requires FirstLine(o1.output) == FirstLine(o2.output)
    ensures HasMessage(AfterRun(ns, tag1, o1), FirstLine(o1.output))
    ensures AfterRun(AfterRun(ns, tag1, o1), tag2, o2) == AfterRun(ns, tag1, o1)
  {
    var line := FirstLine(o1.output);
    var once := AfterRun(ns, tag1, o1);
    if !HasMessage(ns, line) {
      assert once[0].message == line;
    }
  }

  /** Two successful runs with distinct new first lines store both, the later in front. */
  lemma {:induction false} RunTwiceDistinctLines(ns: seq<Notice>, tag1: string, tag2: string, o1: Outcome, o2: Outcome)
    requires o1.failure.None? && o1.output != []
    requires o2.failure.None? && o2.output != []
    requires FirstLine(o1.output) != FirstLine(o2.output)
    requires !HasMessage(ns, FirstLine(o1.output)) && !HasMessage(ns, FirstLine(o2.output))
    ensures AfterRun(AfterRun(ns, tag1, o1), tag2, o2)
         == [NewNotice(tag2, FirstLine(o2.output)), NewNotice(tag1, FirstLine(o1.output))] + ns
  {
    var once := AfterRun(ns, tag1, o1);
    assert once == [NewNotice(tag1, FirstLine(o1.output))] + ns;
  }

  /** Where each column and separator of a status line sits. */
  lemma {:induction false} StatusColumns(name: string, cmd: string, dir: string, status: string)
    requires |name| == 10 && |cmd| == 20 && |dir| == 20 && |status| == 20
    ensures var r := name + " " + cmd + " in " + dir + " status " + status;
      && r[..10] == name && r[10] == ' ' && r[11..31] == cmd && r[31..35] == " in "
      && r[35..55] == dir && r[55..63] == " status " && r[63..83] == status
  {
    var a := name + " " + cmd;
    var b := a + " in " + dir;
    assert a[..10] == name && a[11..31] == cmd;
    assert b[..31] == a && b[35..55] == dir;
  }

  /** A shell task. Only the running flag changes after construction; the
      configured fields are set once, so they are constants here. */
  class Shell {
    var running: bool
    const Interval: int
    const Command: string
    const Label: string
    const Path: string
    const Args: string

    /** NewShell: the tick value becomes the interval, the rest is stored as given. */
    constructor (tick: int, tag: string, command: string, args: string, path: string)
      ensures Interval == tick && Label == tag && Command == command
      ensures Args == args && Path == path
      ensures !running
    {
      running := false;
      Interval := tick;
      Label := tag;
      Command := command;
      Args := args;
      Path := path;
    }

    function Config(): ShellConfig
    {
      ShellConfig(Interval, Label, Command, Args, Path)
    }

    /** Whether a run is in progress. */
    predicate IsRunning()
      reads this
    {
      running
    }

    /** "%-10.10s %-20.20s in %-20.20s status %-20.20v" of the label, the
        command, the directory and the running flag. */
    function String(): (r: string)
      reads this
      ensures |r| == 83
    {
      PadTrunc(Label, 10) + " " + PadTrunc(Command, 20) + " in "
        + PadTrunc(Path, 20) + " status " + PadTrunc(if running then "true" else "false", 20)
    }

    /** The columns of the status line: the label in 10 characters, the
        command and the directory in 20 each, the running flag as "true" or
        "false" in 20, separated by " ", " in " and " status ". */
    lemma Columns()
      ensures var r := String();
        && r[..10] == PadTrunc(Label, 10) && r[10] == ' '
        && r[11..31] == PadTrunc(Command, 20) && r[31..35] == " in "
        && r[35..55] == PadTrunc(Path, 20) && r[55..63] == " status "
        && r[63..83] == PadTrunc(if running then "true" else "false", 20)
    {
      StatusColumns(PadTrunc(Label, 10), PadTrunc(Command, 20), PadTrunc(Path, 20),
        PadTrunc(if running then "true" else "false", 20));
    }

    /** The status line shows "true" exactly while a run is in progress. */
    lemma StatusShowsRunning()
      ensures IsRunning() <==> String()[63..67] == "true"
    {
      var status := if running then "true" else "false";
      var r := String();
      Columns();
      assert r[63..67] == r[63..83][..4];
      assert r[63..67] == status[..4];
      assert running || r[66] == 's';
    }

    /** Runs the command with the whitespace-split arguments, or with none when
        the command name itself is "nil" (the argument list, name first, is
        then cleared), and reports its failure, or files the first line of its output as a notice when no
        notice has that message yet. The running flag is raised first and
        lowered on the way out. */
    method Run(outcome: Outcome, alerts: Notify) returns (argv: seq<string>, err: Option<string>)
      modifies this, alerts
      ensures !running
      ensures argv == if Command == "nil" then [] else Fields(Args)
      ensures outcome.failure.Some? ==> err == Some(outcome.failure.value + outcome.output)
      ensures outcome.failure.None? ==> err == None
      ensures alerts.notices == AfterRun(old(alerts.notices), Label, outcome)
    {
      running := true;
      argv := Fields(Args);
      if Command == "nil" {
        argv := [];
      }
      if outcome.failure.Some? {
        err := Some(outcome.failure.value + outcome.output);
      } else {
        err := None;
        if outcome.output != "" {
          var line := FirstLine(outcome.output);
          var seen := alerts.Contains(line);
          if !seen {
            alerts.PushFront(NewNotice(Label, line));
          }
        }
      }
      running := false;
    }
  }
}
