/** The task configuration file: one task per line, "minutes label command
    comma,separated,args directory", lines starting with '#' ignored. Reading
    it scans each line with "%d %s %s %s %s\n"; writing it prints each task
    with "%03d %s %s %s %s\n" after a fixed comment header. */
module TaskConfig {
  import opened Fmt
  import opened Shells

  const SECONDS: int := 1_000_000_000
  const MINUTES: int := 60 * SECONDS

  /** One scanned configuration line: the interval in minutes, the label, the
      command, the comma-escaped arguments and the working directory. */
  datatype Record = Record(minutes: int, tag: string, command: string, args: string, path: string)

  /** fmt.Sscanf(line, "%d %s %s %s %s\n", ...): an int64 and four tokens, with
      nothing but spaces after the last one. The space after %d must meet a
      space or the end of the line, so the number cannot run into the label. */
  function ScanLine(line: string): (r: Result<Record, ScanError>)
    ensures r.Ok? ==> InInt64(r.value.minutes)
    ensures r.Ok? ==> Token(r.value.tag) && Token(r.value.command)
    ensures r.Ok? ==> Token(r.value.args) && Token(r.value.path)
  {
    var minutes :- ScanInt(line);
    if minutes.1 != [] && !IsSpace(minutes.1[0]) then Err(ExpectedSpace)
    else
      var f :- ScanTokens(minutes.1, 4);
      Ok(Record(minutes.0, f[0], f[1], f[2], f[3]))
  }

  /** The rest of the format after %d: n times " %s", each reading one
      token, then the newline, which lets nothing but spaces follow. */
  function ScanTokens(s: string, n: nat): (r: Result<seq<string>, ScanError>)
    ensures r.Ok? ==> |r.value| == n && forall k :: 0 <= k < n ==> Token(r.value[k])
  {
    if n == 0 then
      if SkipSpaces(s) != [] then Err(TrailingText) else Ok([])
    else
      var tok :- ScanToken(s);
      var more :- ScanTokens(tok.1, n - 1);
      TokensCons(tok.0, more);
      Ok([tok.0] + more)
  }

  /** The task LoadTasks builds from a record: the interval multiplied out to
      nanoseconds in int64 arithmetic, and the commas of the arguments turned
      into spaces. */
  function ToConfig(rec: Record): (c: ShellConfig)
    ensures InInt64(c.interval)
    ensures (c.interval - rec.minutes * MINUTES) % TwoTo64 == 0
    ensures InInt64(rec.minutes * MINUTES) ==> c.interval == rec.minutes * MINUTES
    ensures ',' !in c.args && |c.args| == |rec.args|
    ensures forall i :: 0 <= i < |rec.args| ==> c.args[i] == if rec.args[i] == ',' then ' ' else rec.args[i]
    ensures c.tag == rec.tag && c.command == rec.command && c.path == rec.path
  {
    ShellConfig(Wrap64(rec.minutes * MINUTES), rec.tag, rec.command, Replace(rec.args, ',', ' '), rec.path)
  }

  /** The line SaveTasks prints for a task, without its newline: the interval
      divided back to minutes, and the spaces of the arguments turned into commas.
      It starts with a sign or a digit, never with the '#' of a comment. */
  function SaveLine(c: ShellConfig): (r: string)
    ensures r != [] && (r[0] == '-' || IsDigit(r[0]))
  {
    var z := ZeroPadded(TruncDiv(c.interval, MINUTES), 3);
    var r := z + (" " + c.tag + (" " + c.command + (" " + Replace(c.args, ' ', ',') + (" " + c.path))));
    assert r[0] == z[0];
    r
  }

  const Header: seq<string> := [
    // Each comment line is its '#' and the rest, so that the leading '#' is in plain view.
    "#" + " shell arguements should have spaces escaped with a , if there are no arguements use nil",
    "#",
    "#" + " minutes label command comma,delimited,arguement path"
  ]

  /** The lines of the file SaveTasks writes, front task first: three comment
      lines, then the line of each task in order. */
  function SaveFile(cs: seq<ShellConfig>): (r: seq<string>)
    ensures |r| == 3 + |cs| && r[..3] == Header
    ensures forall i :: 0 <= i < 3 ==> r[i] != [] && r[i][0] == '#'
    ensures forall k :: 0 <= k < |cs| ==> r[3 + k] == SaveLine(cs[k])
  {
    assert Header[0][0] == '#' && Header[1][0] == '#' && Header[2][0] == '#';
    Header + MapSeq(SaveLine, cs)
  }

  // ------------------------------------------------------------------ loading

  /** One call of ReadLine: a line without its line end, or a read error.
      The end of the sequence is end of file. */
  datatype Read = Line(text: string) | Fault(reason: string)

  datatype LoadError =
    | OpenFailed(reason: string)
    | ReadFailed(reason: string)
    | BlankLine          // line[0] of an empty line: an index-out-of-range panic
    | ScanFailed(scan: ScanError)

  /** The records LoadTasks takes, in file order, and the error that stopped it, if any. */
  datatype Loaded = Loaded(records: seq<Record>, err: Option<LoadError>)

  /** What one pass of the read loop of LoadTasks does with a read. */
  datatype Step = Skip | Take(rec: Record) | Halt(error: LoadError)

  /** The body of the read loop: a read error, a blank line or a line that
      fails to scan stops the load; a comment is skipped; any other line is
      scanned into a record. */
  function StepOf(rd: Read): Step
  {
    match rd
    case Fault(e) => Halt(ReadFailed(e))
    case Line(text) =>
      if text == [] then Halt(BlankLine)
      else if text[0] == '#' then Skip
      else match ScanLine(text)
        case Err(e) => Halt(ScanFailed(e))
        case Ok(rec) => Take(rec)
  }

  /** The step of each read, in file order. */
  function StepsOf(rs: seq<Read>): (ss: seq<Step>)
    ensures |ss| == |rs|
  {
    if rs == [] then [] else [StepOf(rs[0])] + StepsOf(rs[1..])
  }

  /** The i-th step is the step of the i-th read. */
  lemma {:induction false} StepsOfAt(rs: seq<Read>, i: nat)
    requires i < |rs|
    ensures StepsOf(rs)[i] == StepOf(rs[i])
  {
    if i > 0 {
      StepsOfAt(rs[1..], i - 1);
    }
  }

  lemma {:induction false} StepsOfAll(rs: seq<Read>)
    ensures forall i :: 0 <= i < |rs| ==> StepsOf(rs)[i] == StepOf(rs[i])
  {
    forall i | 0 <= i < |rs| ensures StepsOf(rs)[i] == StepOf(rs[i]) {
      StepsOfAt(rs, i);
    }
  }

  /** The loop over the steps from index i on: the records taken until the
      first halt, and the error of that halt. */
  function RunFrom(ss: seq<Step>, i: nat): (r: Loaded)
    ensures |r.records| <= if i < |ss| then |ss| - i else 0
    decreases |ss| - i
  {
    if i >= |ss| then Loaded([], None)
    else match ss[i]
      case Halt(e) => Loaded([], Some(e))
      case Skip => RunFrom(ss, i + 1)
      case Take(rec) =>
        var rest := RunFrom(ss, i + 1);
        Loaded([rec] + rest.records, rest.err)
  }

  /** The read loop of LoadTasks: comments are skipped, every other line is
      scanned, and the first read error, blank line or line that fails to
      scan ends the load, keeping the records taken before it. */
  function LoadRecords(rs: seq<Read>): (r: Loaded)
    ensures |r.records| <= |rs|
  {
    RunFrom(StepsOf(rs), 0)
  }

  lemma {:induction false} RunFromCompletes(ss: seq<Step>, i: nat)
    ensures RunFrom(ss, i).err.None? <==> forall j :: i <= j < |ss| ==> !ss[j].Halt?
    decreases |ss| - i
  {
    if i < |ss| && !ss[i].Halt? {
      RunFromCompletes(ss, i + 1);
    }
  }

  /** The load ends without an error exactly when every read passes. */
  lemma {:induction false} LoadCompletes(rs: seq<Read>)
    ensures LoadRecords(rs).err.None? <==> forall k :: 0 <= k < |rs| ==> Passes(rs[k])
  {
    RunFromCompletes(StepsOf(rs), 0);
    StepsOfAll(rs);
  }

  /** Whether the read loop gets past this read. */
  predicate Passes(rd: Read)
  {
    !StepOf(rd).Halt?
  }

  /** The records of the taking steps, in order. */
  function Taken(ss: seq<Step>): seq<Record>
  {
    if ss == [] then []
    else if ss[0].Take? then [ss[0].rec] + Taken(ss[1..])
    else Taken(ss[1..])
  }

  lemma {:induction false} RunFromStops(ss: seq<Step>, i: nat, k: nat)
    requires i <= k <= |ss|
    requires forall j :: i <= j < k ==> !ss[j].Halt?
    requires k < |ss| ==> ss[k].Halt?
    ensures RunFrom(ss, i).records == Taken(ss[i..k])
    ensures RunFrom(ss, i).err == if k == |ss| then None else Some(ss[k].error)
    decreases k - i
  {
    if i == k {
      assert ss[i..k] == [];
    } else {
      RunFromStops(ss, i + 1, k);
      assert ss[i..k][1..] == ss[i + 1..k];
    }
  }

  /** LoadTasks stops at the first read that does not pass, with the error of
      that read, and has by then taken the records of the non-comment lines
      before it. */
  lemma {:induction false} LoadStopsAtFirstFailure(rs: seq<Read>, k: nat)
    requires k <= |rs|
    requires forall i :: 0 <= i < k ==> Passes(rs[i])
    requires k == |rs| || !Passes(rs[k])
    ensures LoadRecords(rs).records == Taken(StepsOf(rs[..k]))
    ensures LoadRecords(rs).err == if k == |rs| then None else Some(StepOf(rs[k]).error)
  {
    var ss := StepsOf(rs);
    StepsOfAll(rs);
    RunFromStops(ss, 0, k);
    StepsOfPrefix(rs, k);
    assert ss[0..k] == ss[..k];
  }

  lemma {:induction false} RunFromShift(s: Step, ss: seq<Step>, i: nat)
    ensures RunFrom([s] + ss, i + 1) == RunFrom(ss, i)
    decreases |ss| - i
  {
    if i < |ss| {
      assert ([s] + ss)[i + 1] == ss[i];
      RunFromShift(s, ss, i + 1);
    }
  }

  /** The loop over a step followed by more steps. */
  lemma {:induction false} RunFromCons(st: Step, ss: seq<Step>)
    ensures RunFrom([st] + ss, 0) == match st
      case Halt(e) => Loaded([], Some(e))
      case Skip => RunFrom(ss, 0)
      case Take(rec) => Loaded([rec] + RunFrom(ss, 0).records, RunFrom(ss, 0).err)
  {
    assert ([st] + ss)[0] == st;
    match st
    case Halt(e) =>
    case Skip => RunFromShift(st, ss, 0);
    case Take(rec) => RunFromShift(st, ss, 0);
  }

  lemma {:induction false} StepsOfCons(rd: Read, rest: seq<Read>)
    ensures StepsOf([rd] + rest) == [StepOf(rd)] + StepsOf(rest)
  {
    assert ([rd] + rest)[1..] == rest;
  }

  lemma {:induction false} StepsOfPrefix(rs: seq<Read>, k: nat)
    requires k <= |rs|
    ensures StepsOf(rs)[..k] == StepsOf(rs[..k])
  {
    var l, r := StepsOf(rs)[..k], StepsOf(rs[..k]);
    forall i | 0 <= i < k ensures l[i] == r[i] {
      StepsOfAt(rs, i);
      StepsOfAt(rs[..k], i);
      assert rs[..k][i] == rs[i];
    }
  }

  // ---------------------------------------------------------------- round trip

  /** A record whose fields fit the line format and whose interval fits int64. */
  predicate WellFormed(rec: Record)
  {
    InInt64(rec.minutes * MINUTES) && Token(rec.tag) && Token(rec.command)
      && Token(rec.args) && Token(rec.path)
  }

  lemma {:induction false} MinutesExact(m: int)
    ensures TruncDiv(m * MINUTES, MINUTES) == m
  {
    if m < 0 {
      assert -(m * MINUTES) == (-m) * MINUTES;
    }
  }

  /** A line that starts with a number %d reads, followed by four space-led
      tokens, scans to those five values. */
  lemma {:induction false} ScanLineOf(line: string, m: int, rec: Record)
    requires rec.minutes == m && Token(rec.tag) && Token(rec.command) && Token(rec.args) && Token(rec.path)
    requires ScanInt(line) == Ok((m, " " + rec.tag + (" " + rec.command + (" " + rec.args + (" " + rec.path)))))
    ensures ScanLine(line) == Ok(rec)
  {
    var r5 := " " + rec.path;
    var r4 := " " + rec.args + r5;
    var r3 := " " + rec.command + r4;
    var r2 := " " + rec.tag + r3;
    ScanTokenOf(rec.tag, r3);
    ScanTokenOf(rec.command, r4);
    ScanTokenOf(rec.args, r5);
    ScanTokenOf(rec.path, "");
    assert " " + rec.path + "" == r5;
    FourTokens(r2, r3, r4, r5, "", rec.tag, rec.command, rec.args, rec.path);
  }

  lemma {:induction false} FourTokens(r1: string, r2: string, r3: string, r4: string, r5: string,
                                      a: string, b: string, c: string, d: string)
    requires ScanToken(r1) == Ok((a, r2)) && ScanToken(r2) == Ok((b, r3))
    requires ScanToken(r3) == Ok((c, r4)) && ScanToken(r4) == Ok((d, r5)) && SkipSpaces(r5) == []
    ensures ScanTokens(r1, 4).Ok?
    ensures var f := ScanTokens(r1, 4).value; f[0] == a && f[1] == b && f[2] == c && f[3] == d
  {
    var none := ScanTokens(r5, 0).value;
    ScanTokensCons(r4, d, r5, 0, none);
    ScanTokensCons(r3, c, r4, 1, [d] + none);
    ScanTokensCons(r2, b, r3, 2, [c] + ([d] + none));
    ScanTokensCons(r1, a, r2, 3, [b] + ([c] + ([d] + none)));
    ConsIndices(a, b, c, d, none);
  }

  lemma {:induction false} ConsIndices<T>(a: T, b: T, c: T, d: T, tail: seq<T>)
    ensures var f := [a] + ([b] + ([c] + ([d] + tail))); f[0] == a && f[1] == b && f[2] == c && f[3] == d
  {
  }

  /** " %s" reads one token and the rest of the format reads the others. */
  lemma {:induction false} ScanTokensCons(s: string, tok: string, rest: string, n: nat, more: seq<string>)
    requires ScanToken(s) == Ok((tok, rest)) && ScanTokens(rest, n) == Ok(more)
    ensures ScanTokens(s, n + 1) == Ok([tok] + more)
  {
  }

  /** A line that scans has exactly five fields: a numeral spelling the
      minutes, then the label, the command, the argument token and the directory. */
  lemma {:induction false} ScanLineFields(line: string)
    requires ScanLine(line).Ok?
    ensures var rec, f := ScanLine(line).value, Fields(line);
      && |f| == 5 && Numeral(f[0], rec.minutes)
      && f[1..] == [rec.tag, rec.command, rec.args, rec.path]
  {
    var m := ScanInt(line).value;
    ScanIntReads(line);
    var t := SkipSpaces(line);
    var w := t[..|t| - |m.1|];
    NumeralToken(w, m.0);
    FieldsSkip(line);
    FieldsOfTokenThen(w, m.1);
    TokensFields(m.1, 4);
    var v := ScanTokens(m.1, 4).value;
    FieldsOfRecord(Fields(line), w, v, ScanLine(line).value);
  }

  lemma {:induction false} FieldsOfRecord(f: seq<string>, w: string, v: seq<string>, rec: Record)
    requires f == [w] + v && |v| == 4
    requires rec.tag == v[0] && rec.command == v[1] && rec.args == v[2] && rec.path == v[3]
    ensures |f| == 5 && f[0] == w && f[1..] == [rec.tag, rec.command, rec.args, rec.path]
  {
    assert f[1..] == v;
  }

  /** The tokens the rest of the format reads are the fields of its input. */
  lemma {:induction false} TokensFields(s: string, n: nat)
    requires ScanTokens(s, n).Ok?
    ensures Fields(s) == ScanTokens(s, n).value
  {
    if n == 0 {
      FieldsSkip(s);
    } else {
      var tok := ScanToken(s).value;
      TokensFields(tok.1, n - 1);
      FieldsAfterToken(s);
    }
  }

  /** Conversely, a line of five fields whose first is a numeral with an
      int64 value scans to those fields. A number run into the label, as in
      "30build", is one field that is no numeral, so such a line does not scan. */
  lemma {:induction false} FieldsScanLine(line: string, v: int)
    requires |Fields(line)| == 5 && Numeral(Fields(line)[0], v) && InInt64(v)
    ensures ScanLine(line) == Ok(Record(v, Fields(line)[1], Fields(line)[2], Fields(line)[3], Fields(line)[4]))
  {
    FirstFieldScans(line, v);
    FieldsTokens(ScanInt(line).value.1);
  }

  /** %d reads a first field that is a numeral with an int64 value, and
      leaves a space or nothing in front of the other fields. */
  lemma {:induction false} FirstFieldScans(line: string, v: int)
    requires Fields(line) != [] && Numeral(Fields(line)[0], v) && InInt64(v)
    ensures ScanInt(line).Ok? && ScanInt(line).value.0 == v
    ensures var rest := ScanInt(line).value.1;
      (rest == [] || IsSpace(rest[0])) && Fields(rest) == Fields(line)[1..]
  {
    var t := SkipSpaces(line);
    var n := TokenLength(t);
    FieldsHead(line);
    NumeralAfterSpaces(line, t[..n], t[n..], v);
  }

  lemma {:induction false} NumeralAfterSpaces(line: string, w: string, rest: string, v: int)
    requires SkipSpaces(line) == w + rest && Numeral(w, v) && InInt64(v)
    requires rest == [] || IsSpace(rest[0])
    ensures ScanInt(line) == Ok((v, rest))
  {
    NumeralScans(w, v, rest);
    ScanIntSkip(line);
  }

  lemma {:induction false} FieldsHead(line: string)
    requires Fields(line) != []
    ensures var t := SkipSpaces(line); var n := TokenLength(t);
      t == t[..n] + t[n..] && Fields(line)[0] == t[..n] && Fields(t[n..]) == Fields(line)[1..]
  {
    var t := SkipSpaces(line);
    var n := TokenLength(t);
    ConsParts(Fields(line), t[..n], Fields(t[n..]));
    SplitAt(t, n);
  }

  lemma {:induction false} ConsParts<T>(m: seq<T>, x: T, y: seq<T>)
    requires m == [x] + y
    ensures m[0] == x && m[1..] == y
  {
  }

  lemma {:induction false} SplitAt<T>(t: seq<T>, n: nat)
    requires n <= |t|
    ensures t == t[..n] + t[n..]
  {
  }

  /** Conversely, text of n fields is read, field by field, by n times " %s". */
  lemma {:induction false} FieldsTokens(s: string)
    ensures ScanTokens(s, |Fields(s)|) == Ok(Fields(s))
    decreases |s|
  {
    if Fields(s) == [] {
      NoFieldsSkipped(s);
    } else {
      ScanTokenField(s);
      var tok := ScanToken(s).value;
      FieldsTokens(tok.1);
      FieldsAfterToken(s);
    }
  }

  /** Saving the task a well-formed line loads to and scanning the saved line
      gives the same minutes, label, command, argument token and directory. */
  lemma {:induction false} LineRoundTrip(rec: Record)
    requires WellFormed(rec)
    ensures ScanLine(SaveLine(ToConfig(rec))) == Ok(rec)
  {
    var c := ToConfig(rec);
    MinutesExact(rec.minutes);
    assert TruncDiv(c.interval, MINUTES) == rec.minutes;
    ReplaceUndone(rec.args, ',', ' ');
    assert Replace(c.args, ' ', ',') == rec.args;
    var r2 := " " + rec.tag + (" " + rec.command + (" " + rec.args + (" " + rec.path)));
    ScanIntOfZeroPadded(rec.minutes, r2);
    ScanLineOf(SaveLine(c), rec.minutes, rec);
  }

  /** A task that the line format can carry: an int64 interval that is a
      whole number of minutes, space-free label, command and directory, and
      non-empty arguments with no commas and no whitespace but plain spaces. */
  predicate Saveable(c: ShellConfig)
  {
    && InInt64(c.interval) && c.interval % MINUTES == 0
    && Token(c.tag) && Token(c.command) && Token(c.path)
    && c.args != [] && ',' !in c.args
    && forall i :: 0 <= i < |c.args| ==> c.args[i] == ' ' || !IsSpace(c.args[i])
  }

  /** The record a saved line of c scans to. */
  function RecordOf(c: ShellConfig): Record
  {
    Record(TruncDiv(c.interval, MINUTES), c.tag, c.command, Replace(c.args, ' ', ','), c.path)
  }

  lemma {:induction false} WholeMinutes(x: int)
    requires x % MINUTES == 0
    ensures TruncDiv(x, MINUTES) * MINUTES == x
  {
    var q := x / MINUTES;
    assert x == q * MINUTES;
    MinutesExact(q);
  }

  /** The line SaveTasks writes for a saveable task loads back to that task. */
  lemma {:induction false} SavedLineLoads(c: ShellConfig)
    requires Saveable(c)
    ensures ScanLine(SaveLine(c)) == Ok(RecordOf(c))
    ensures ToConfig(RecordOf(c)) == c
  {
    var rec := RecordOf(c);
    WholeMinutes(c.interval);
    assert rec.minutes * MINUTES == c.interval;
    assert Token(rec.args) by {
      forall i | 0 <= i < |rec.args| ensures !IsSpace(rec.args[i]) {
        assert rec.args[i] == (if c.args[i] == ' ' then ',' else c.args[i]);
      }
    }
    ReplaceUndone(c.args, ' ', ',');
    assert ToConfig(rec) == c;
    LineRoundTrip(rec);
  }

  function AsReads(lines: seq<string>): seq<Read>
  {
    MapSeq((l: string) => Line(l), lines)
  }

  /** A scanned line that is not a comment contributes its record. */
  lemma {:induction false} LoadRecordsTaking(text: string, rec: Record, rest: seq<Read>)
    requires text != [] && text[0] != '#' && ScanLine(text) == Ok(rec)
    ensures LoadRecords([Line(text)] + rest)
         == Loaded([rec] + LoadRecords(rest).records, LoadRecords(rest).err)
  {
    StepsOfCons(Line(text), rest);
    RunFromCons(StepOf(Line(text)), StepsOf(rest));
  }

  /** A comment line is skipped. */
  lemma {:induction false} LoadRecordsSkipping(text: string, rest: seq<Read>)
    requires text != [] && text[0] == '#'
    ensures LoadRecords([Line(text)] + rest) == LoadRecords(rest)
  {
    StepsOfCons(Line(text), rest);
    RunFromCons(StepOf(Line(text)), StepsOf(rest));
  }

  /** The state of the read loop after the first i steps: taken are the
      records so far, and the rest of the load follows from the remaining steps. */
  ghost predicate LoadedSoFar(ss: seq<Step>, i: nat, taken: seq<Record>)
  {
    i <= |ss| && RunFrom(ss, 0) == Loaded(taken + RunFrom(ss, i).records, RunFrom(ss, i).err)
  }

  lemma {:induction false} LoadedNothing(ss: seq<Step>)
    ensures LoadedSoFar(ss, 0, [])
  {
    assert [] + RunFrom(ss, 0).records == RunFrom(ss, 0).records;
  }

  lemma {:induction false} LoadedHalt(ss: seq<Step>, i: nat, taken: seq<Record>)
    requires LoadedSoFar(ss, i, taken) && i < |ss| && ss[i].Halt?
    ensures RunFrom(ss, 0) == Loaded(taken, Some(ss[i].error))
  {
    assert taken + [] == taken;
  }

  lemma {:induction false} LoadedSkip(ss: seq<Step>, i: nat, taken: seq<Record>)
    requires LoadedSoFar(ss, i, taken) && i < |ss| && ss[i].Skip?
    ensures LoadedSoFar(ss, i + 1, taken)
  {
  }

  lemma {:induction false} LoadedTake(ss: seq<Step>, i: nat, taken: seq<Record>)
    requires LoadedSoFar(ss, i, taken) && i < |ss| && ss[i].Take?
    ensures LoadedSoFar(ss, i + 1, taken + [ss[i].rec])
  {
    var rest := RunFrom(ss, i + 1).records;
    assert taken + ([ss[i].rec] + rest) == (taken + [ss[i].rec]) + rest;
  }

  lemma {:induction false} LoadedAll(ss: seq<Step>, taken: seq<Record>)
    requires LoadedSoFar(ss, |ss|, taken)
    ensures RunFrom(ss, 0) == Loaded(taken, None)
  {
    assert taken + [] == taken;
  }

  lemma {:induction false} SavedLinesLoad(cs: seq<ShellConfig>)
    requires forall i :: 0 <= i < |cs| ==> Saveable(cs[i])
    ensures LoadRecords(AsReads(MapSeq(SaveLine, cs))) == Loaded(MapSeq(RecordOf, cs), None)
  {
    if cs != [] {
      SavedLinesLoad(cs[1..]);
      SavedLineThen(cs[0], AsReads(MapSeq(SaveLine, cs[1..])), MapSeq(RecordOf, cs[1..]));
      AsReadsCons(cs);
      MapSeqCons(RecordOf, cs);
    }
  }

  /** A saved line in front of reads that load without error adds its record in front. */
  lemma {:induction false} SavedLineThen(c: ShellConfig, rest: seq<Read>, recs: seq<Record>)
    requires Saveable(c) && LoadRecords(rest) == Loaded(recs, None)
    ensures LoadRecords([Line(SaveLine(c))] + rest) == Loaded([RecordOf(c)] + recs, None)
  {
    SavedLineLoads(c);
    LoadRecordsTaking(SaveLine(c), RecordOf(c), rest);
  }

  lemma {:induction false} AsReadsCons(cs: seq<ShellConfig>)
    requires cs != []
    ensures AsReads(MapSeq(SaveLine, cs)) == [Line(SaveLine(cs[0]))] + AsReads(MapSeq(SaveLine, cs[1..]))
  {
    MapSeqCons(SaveLine, cs);
    MapSeqCons((l: string) => Line(l), MapSeq(SaveLine, cs));
  }

  /** Saving saveable tasks and loading the file gives one record per task,
      in the order saved, with no error, and those records are the tasks again. */
  lemma {:induction false} SaveThenLoad(cs: seq<ShellConfig>)
    requires forall i :: 0 <= i < |cs| ==> Saveable(cs[i])
    ensures LoadRecords(AsReads(SaveFile(cs))) == Loaded(MapSeq(RecordOf, cs), None)
    ensures MapSeq(ToConfig, MapSeq(RecordOf, cs)) == cs
  {
    SavedReads(cs);
    HeaderSkipped(AsReads(MapSeq(SaveLine, cs)));
    SavedLinesLoad(cs);
    SavedConfigsKept(cs);
  }

  /** The reads of a saved file: the header's, then those of the task lines. */
  lemma {:induction false} SavedReads(cs: seq<ShellConfig>)
    ensures AsReads(SaveFile(cs)) == AsReads(Header) + AsReads(MapSeq(SaveLine, cs))
  {
    AsReadsAppend(Header, MapSeq(SaveLine, cs));
  }

  lemma {:induction false} AsReadsAppend(a: seq<string>, b: seq<string>)
    ensures AsReads(a + b) == AsReads(a) + AsReads(b)
  {
    var l, r := AsReads(a + b), AsReads(a) + AsReads(b);
    assert |l| == |r|;
    forall i | 0 <= i < |l| ensures l[i] == r[i] {
      if i >= |a| {
        assert (a + b)[i] == b[i - |a|];
      }
    }
  }

  /** The three comment lines of the header load nothing and stop nothing. */
  lemma {:induction false} HeaderSkipped(body: seq<Read>)
    ensures LoadRecords(AsReads(Header) + body) == LoadRecords(body)
  {
    var h0, h1, h2 := Header[0], Header[1], Header[2];
    assert AsReads(Header) + body == [Line(h0)] + ([Line(h1)] + ([Line(h2)] + body));
    assert h0[0] == '#' && h1[0] == '#' && h2[0] == '#';
    LoadRecordsSkipping(h0, [Line(h1)] + ([Line(h2)] + body));
    LoadRecordsSkipping(h1, [Line(h2)] + body);
    LoadRecordsSkipping(h2, body);
  }

  /** Every saveable task comes back from its record. */
  lemma {:induction false} SavedConfigsKept(cs: seq<ShellConfig>)
    requires forall i :: 0 <= i < |cs| ==> Saveable(cs[i])
    ensures MapSeq(ToConfig, MapSeq(RecordOf, cs)) == cs
  {
    forall i | 0 <= i < |cs| ensures ToConfig(RecordOf(cs[i])) == cs[i] {
      SavedLineLoads(cs[i]);
    }
  }

  lemma ThirtyPadded()
    ensures ZeroPadded(30, 3) == "030"
  {
    assert NatDigits(3) == "3";
    assert NatDigits(30) == "30";
  }

  lemma CommasSpaced()
    ensures Replace("clean,build", ',', ' ') == "clean build"
  {
    var c, b := "clean", "build";
    assert "clean,build" == c + [','] + b;
    ReplaceAppend(c + [','], b, ',', ' ');
    ReplaceAppend(c, [','], ',', ' ');
    ReplaceFree(c, ',', ' ');
    ReplaceFree(b, ',', ' ');
    assert Replace([','], ',', ' ') == [' '];
    assert c + [' '] + b == "clean build";
  }

  lemma SpacesCommaed()
    ensures Replace("clean build", ' ', ',') == "clean,build"
  {
    var c, b := "clean", "build";
    assert "clean build" == c + [' '] + b;
    ReplaceAppend(c + [' '], b, ' ', ',');
    ReplaceAppend(c, [' '], ' ', ',');
    ReplaceFree(c, ' ', ',');
    ReplaceFree(b, ' ', ',');
    assert Replace([' '], ' ', ',') == [','];
    assert c + [','] + b == "clean,build";
  }

  lemma SaveLineOf(c: ShellConfig, minutes: string, args: string)
    requires ZeroPadded(TruncDiv(c.interval, MINUTES), 3) == minutes
    requires Replace(c.args, ' ', ',') == args
    ensures SaveLine(c) == minutes + (" " + c.tag + (" " + c.command + (" " + args + (" " + c.path))))
  {
  }

  lemma ArgsPathText()
    ensures " " + "clean,build" + (" " + "/src") == " clean,build /src"
  {
    assert " " + "/src" == " /src";
    assert " " + "clean,build" == " clean,build";
    assert " clean,build" + " /src" == " clean,build /src";
  }

  lemma CommandText()
    ensures " " + "make" + " clean,build /src" == " make clean,build /src"
  {
  }

  lemma LabelText()
    ensures " " + "build" + " make clean,build /src" == " build make clean,build /src"
  {
  }

  lemma MinutesText()
    ensures "030" + " build make clean,build /src" == "030 build make clean,build /src"
  {
  }

  lemma BuildLineText()
    ensures "030" + (" " + "build" + (" " + "make" + (" " + "clean,build" + (" " + "/src"))))
         == "030 build make clean,build /src"
  {
    ArgsPathText();
    CommandText();
    LabelText();
    MinutesText();
  }

  lemma BuildLineSaved()
    ensures SaveLine(ToConfig(Record(30, "build", "make", "clean,build", "/src"))) == "030 build make clean,build /src"
  {
    var c := ToConfig(Record(30, "build", "make", "clean,build", "/src"));
    MinutesExact(30);
    CommasSpaced();
    SpacesCommaed();
    ThirtyPadded();
    SaveLineOf(c, "030", "clean,build");
    BuildLineText();
  }

  /** The line "030 build make clean,build /src" scans to thirty minutes,
      the label build, the command make, the argument token clean,build and
      the directory /src. */
  lemma BuildLineScans()
    ensures ScanLine("030 build make clean,build /src") == Ok(Record(30, "build", "make", "clean,build", "/src"))
  {
    var rec := Record(30, "build", "make", "clean,build", "/src");
    assert WellFormed(rec);
    LineRoundTrip(rec);
    BuildLineSaved();
  }

  lemma CleanBuildFields(s: string)
    requires s == JoinSpaced(["clean", "build"])
    ensures Fields(s) == ["clean", "build"]
  {
    assert Token("clean") && Token("build");
    FieldsOfJoined(["clean", "build"]);
  }

  /** The task that line loads to runs make with the two arguments clean
      and build in /src every thirty minutes. */
  lemma BuildLineTask()
    ensures ToConfig(Record(30, "build", "make", "clean,build", "/src"))
         == ShellConfig(30 * MINUTES, "build", "make", "clean build", "/src")
    ensures Fields(ToConfig(Record(30, "build", "make", "clean,build", "/src")).args) == ["clean", "build"]
  {
    CommasSpaced();
    var c := ToConfig(Record(30, "build", "make", "clean,build", "/src"));
    assert JoinSpaced(["clean", "build"]) == "clean build";
    CleanBuildFields(c.args);
  }
}
