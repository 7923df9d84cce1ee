/** The notice mailbox: a list of notices, most recent first, that task runs,
    remote clients and the log sink push onto, and that remote clients read,
    mark read and dump. */
module Mailbox {
  import opened Fmt

  /** One observed event: its tag (Go's label field), its message and whether it
      has been read. Only the read flag ever changes after creation. */
  datatype Notice = Notice(tag: string, message: string, read: bool)

  /** A notice as Go's NewNotice makes it: the tag and message as given, not yet read. */
  function NewNotice(tag: string, message: string): (r: Notice)
    ensures r.tag == tag && r.message == message && !r.read
  {
    Notice(tag, message, false)
  }

  /** Notice.String: "%-10.10s %-70.70s..." of the label with a colon and of the message. */
  function Render(n: Notice): (r: string)
    ensures |r| == 84
    ensures r[..10] == PadTrunc(n.tag + ":", 10) && r[10] == ' '
    ensures r[11..81] == PadTrunc(n.message, 70) && r[81..] == "..."
  {
    PadTrunc(n.tag + ":", 10) + " " + PadTrunc(n.message, 70) + "..."
  }

  /** A short label and message can be read back off their columns, and the
      read flag does not show. */
  lemma {:induction false} RenderShowsShort(n: Notice)
    requires |n.tag| < 10 && |n.message| <= 70
    ensures Render(n)[..|n.tag| + 1] == n.tag + ":"
    ensures Render(n)[11..11 + |n.message|] == n.message
    ensures forall i :: 11 + |n.message| <= i < 81 ==> Render(n)[i] == ' '
    ensures Render(n) == Render(n.(read := !n.read))
  {
    var r := Render(n);
    PadTruncFits(n.tag + ":", 10);
    PadTruncFits(n.message, 70);
    assert r[..|n.tag| + 1] == r[..10][..|n.tag| + 1];
    assert r[11..11 + |n.message|] == r[11..81][..|n.message|];
    forall i | 11 + |n.message| <= i < 81 ensures r[i] == ' ' {
      assert r[i] == r[11..81][i - 11];
    }
  }

  // ------------------------------------------------------------ Go syntax (%#v)

  function HexDigit(d: nat): char
    requires d < 16
  {
    "0123456789abcdef"[d]
  }

  /** No control character: neither C0, DEL nor C1. */
  predicate Printable(s: string)
  {
    forall i :: 0 <= i < |s| ==> s[i] as int >= 0x20 && !(0x7F <= s[i] as int < 0xA0)
  }

  lemma {:induction false} PrintableAppend(a: string, b: string)
    requires Printable(a) && Printable(b)
    ensures Printable(a + b)
  {
  }

  /** strconv.Quote's escape of one character: named escapes, backslash and
      quote, and hexadecimal escapes for the C0 and C1 control characters. */
  function Escape(c: char): (r: string)
    ensures Printable(r)
  {
    var k := c as int;
    if c == '"' then "\\\""
    else if c == '\\' then "\\\\"
    else if k == 7 then "\\a"
    else if k == 8 then "\\b"
    else if k == 12 then "\\f"
    else if c == '\n' then "\\n"
    else if c == '\r' then "\\r"
    else if c == '\t' then "\\t"
    else if k == 11 then "\\v"
    else if k < 0x20 || k == 0x7F then "\\x" + [HexDigit(k / 16), HexDigit(k % 16)]
    else if 0x80 <= k < 0xA0 then "\\u00" + [HexDigit(k / 16), HexDigit(k % 16)]
    else [c]
  }

  function EscapeAll(s: string): (r: string)
    ensures Printable(r)
  {
    if s == [] then [] else Escape(s[0]) + EscapeAll(s[1..])
  }

  function Quote(s: string): string
  {
    "\"" + EscapeAll(s) + "\""
  }

  /** fmt's %#v of a *Notice, one entry of Dump. */
  function GoSyntax(n: Notice): (r: string)
  {
    "&main.Notice{label:" + Quote(n.tag) + ", message:" + Quote(n.message)
      + ", read:" + (if n.read then "true" else "false") + "}"
  }

  /** A quoted string has no control character left in it. */
  lemma {:induction false} QuoteIsPrintable(s: string)
    ensures Printable(Quote(s))
  {
    PrintableAppend("\"", EscapeAll(s));
    PrintableAppend("\"" + EscapeAll(s), "\"");
  }

  lemma {:induction false} GoSyntaxHeadPrintable(lbl: string)
    requires Printable(lbl)
    ensures Printable("&main.Notice{label:" + lbl + ", message:")
  {
    PrintableAppend("&main.Notice{label:", lbl);
    PrintableAppend("&main.Notice{label:" + lbl, ", message:");
  }

  lemma {:induction false} GoSyntaxTailPrintable(read: bool)
    ensures Printable(", read:" + (if read then "true" else "false") + "}")
  {
  }

  /** Every Dump entry is one printable line. */
  lemma {:induction false} GoSyntaxPrintable(n: Notice)
    ensures Printable(GoSyntax(n))
    ensures '\n' !in GoSyntax(n)
  {
    var lbl, msg := Quote(n.tag), Quote(n.message);
    QuoteIsPrintable(n.tag);
    QuoteIsPrintable(n.message);
    var head := "&main.Notice{label:" + lbl + ", message:";
    var tail := ", read:" + (if n.read then "true" else "false") + "}";
    GoSyntaxHeadPrintable(lbl);
    GoSyntaxTailPrintable(n.read);
    PrintableAppend(head, msg);
    PrintableAppend(head + msg, tail);
    var r := GoSyntax(n);
    assert r == (head + msg) + tail;
    assert forall i :: 0 <= i < |r| ==> r[i] != '\n';
  }

  /** A Dump entry ends by showing the read flag. */
  lemma {:induction false} GoSyntaxShowsRead(n: Notice)
    ensures n.read <==> GoSyntax(n)[|GoSyntax(n)| - 5..] == "true}"
  {
    var r := GoSyntax(n);
    assert r[|r| - 5..] == (if n.read then "true}" else "alse}");
  }

  // ------------------------------------------------------------ queue contents

  /** Whether some notice, read or not and whatever its label, has message m. */
  predicate HasMessage(ns: seq<Notice>, m: string)
  {
    exists i :: 0 <= i < |ns| && ns[i].message == m
  }

  /** The unread notices, in queue order. */
  function Unread(ns: seq<Notice>): (r: seq<Notice>)
    ensures |r| <= |ns|
    ensures forall n :: n in r <==> n in ns && !n.read
  {
    if ns == [] then []
    else if ns[0].read then Unread(ns[1..])
    else [ns[0]] + Unread(ns[1..])
  }

  /** Filtering commutes with concatenation, so Unread keeps queue order. */
  lemma {:induction false} UnreadAppend(a: seq<Notice>, b: seq<Notice>)
    ensures Unread(a + b) == Unread(a) + Unread(b)
  {
    if a != [] {
      assert (a + b)[1..] == a[1..] + b;
      UnreadAppend(a[1..], b);
    } else {
      assert a + b == b;
    }
  }

  /** What MarkRead leaves: the same notices, each marked read. */
  function AllRead(ns: seq<Notice>): (r: seq<Notice>)
    ensures |r| == |ns|
    ensures forall i :: 0 <= i < |ns| ==> r[i] == ns[i].(read := true)
  {
    MapSeq((n: Notice) => n.(read := true), ns)
  }

  /** Once everything is marked read nothing is unread, marking again changes
      nothing, and every notice is still there with its label and message. */
  lemma {:induction false} MarkReadEffect(ns: seq<Notice>)
    ensures Unread(AllRead(ns)) == []
    ensures AllRead(AllRead(ns)) == AllRead(ns)
    ensures forall i :: 0 <= i < |ns| ==>
              AllRead(ns)[i].tag == ns[i].tag && AllRead(ns)[i].message == ns[i].message
  {
    if ns != [] {
      assert AllRead(ns)[1..] == AllRead(ns[1..]);
      MarkReadEffect(ns[1..]);
    }
  }

  function RenderAll(ns: seq<Notice>): (r: seq<string>)
    ensures |r| == |ns| && forall i :: 0 <= i < |ns| ==> r[i] == Render(ns[i])
  {
    MapSeq(Render, ns)
  }

  /** Extending a prefix of the queue by one notice extends its unread
      filter by that notice if it is unread. */
  lemma {:induction false} UnreadStep(ns: seq<Notice>, i: nat)
    requires i < |ns|
    ensures Unread(ns[..i + 1]) == Unread(ns[..i]) + (if ns[i].read then [] else [ns[i]])
  {
    assert ns[..i + 1] == ns[..i] + [ns[i]];
    UnreadAppend(ns[..i], [ns[i]]);
    assert [ns[i]][1..] == [];
  }

  lemma {:induction false} RenderedStep(ns: seq<Notice>, i: nat)
    requires i < |ns|
    ensures RenderAll(Unread(ns[..i + 1]))
         == RenderAll(Unread(ns[..i])) + (if ns[i].read then [] else [Render(ns[i])])
  {
    UnreadStep(ns, i);
    var a := Unread(ns[..i]);
    if !ns[i].read {
      var l, r := RenderAll(a + [ns[i]]), RenderAll(a) + [Render(ns[i])];
      assert |l| == |r|;
      forall k | 0 <= k < |l| ensures l[k] == r[k] {
        if k < |a| { assert (a + [ns[i]])[k] == a[k]; }
      }
    } else {
      assert a + [] == a;
    }
  }

  /** The mailbox. Go's container/list becomes a sequence whose index 0 is the front. */
  class Notify {
    var notices: seq<Notice>

    constructor ()
      ensures notices == []
    {
      notices := [];
    }

    /** The list's PushFront. */
    method PushFront(n: Notice)
      modifies this
      ensures notices == [n] + old(notices)
    {
      notices := [n] + notices;
    }

    /** Whether any notice in the whole history, read or unread, has message s. */
    method Contains(s: string) returns (contains: bool)
      ensures contains <==> HasMessage(notices, s)
    {
      contains := false;
      var i := 0;
      while i < |notices|
        invariant 0 <= i <= |notices|
        invariant contains <==> exists j :: 0 <= j < i && notices[j].message == s
      {
        if notices[i].message == s {
          contains := true;
        }
        i := i + 1;
      }
    }

    /** The log sink: the text written, without its final character (the
        newline log adds), becomes an unread notice labelled "shock"; it
        always reports 0 bytes and no error. */
    method Write(b: string) returns (n: int, err: Option<string>)
      requires |b| > 0
      modifies this
      ensures notices == [NewNotice("shock", b[..|b| - 1])] + old(notices)
      ensures n == 0 && err == None
    {
      var m := NewNotice("shock", b[..|b| - 1]);
      PushFront(m);
      return 0, None;
    }

    /** The number of notices, read ones included. */
    method Total() returns (reply: int)
      ensures reply == |notices|
    {
      reply := |notices|;
    }

    /** The status line for the receiver. The count is of unread notices,
        the message the front one's. */
    method Last(verbose: bool, prefix: string, reply: string) returns (r: LastReply)
      ensures notices == [] && verbose ==> r == Reply(ZeroMessages)
      ensures notices == [] && !verbose ==> r == NilDereference
      ensures notices != [] && !notices[0].read ==>
                r == Reply(prefix + " total: " + Decimal(|Unread(notices)|) + " last: " + notices[0].message)
      ensures notices != [] && notices[0].read ==> r == Reply(if verbose then ZeroMessages else reply)
    {
      var count := 0;
      var i := 0;
      while i < |notices|
        invariant 0 <= i <= |notices|
        invariant count == |Unread(notices[..i])|
      {
        UnreadStep(notices, i);
        if !notices[i].read {
          count := count + 1;
        }
        i := i + 1;
      }
      assert notices[..i] == notices;
      if |notices| == 0 && verbose {
        return Reply(ZeroMessages);
      }
      if |notices| == 0 {
        return NilDereference;
      }
      var n := notices[0];
      if !n.read {
        return Reply(prefix + " total: " + Decimal(count) + " last: " + n.message);
      }
      if verbose {
        return Reply(ZeroMessages);
      }
      return Reply(reply);
    }

    /** A remote push: an unread notice labelled "client", with no dedup. */
    method Push(m: string)
      modifies this
      ensures notices == [NewNotice("client", m)] + old(notices)
    {
      var notice := Notice("client", m, false);
      PushFront(notice);
    }

    /** The rendering of exactly the unread notices, front first. */
    method Notices() returns (reply: seq<string>)
      ensures reply == RenderAll(Unread(notices))
    {
      reply := [];
      var i := 0;
      while i < |notices|
        invariant 0 <= i <= |notices|
        invariant reply == RenderAll(Unread(notices[..i]))
      {
        RenderedStep(notices, i);
        if !notices[i].read {
          reply := reply + [Render(notices[i])];
        }
        i := i + 1;
      }
      assert notices[..i] == notices;
    }

    /** Marks every notice read, touching nothing else. */
    method MarkRead()
      modifies this
      ensures notices == AllRead(old(notices))
    {
      var i := 0;
      while i < |notices|
        invariant 0 <= i <= |notices| == |old(notices)|
        invariant forall k :: 0 <= k < i ==> notices[k] == old(notices)[k].(read := true)
        invariant forall k :: i <= k < |notices| ==> notices[k] == old(notices)[k]
      {
        notices := notices[i := notices[i].(read := true)];
        i := i + 1;
      }
    }

    /** One Go-syntax entry per notice, read or unread, front first. */
    method Dump() returns (reply: seq<string>)
      ensures |reply| == |notices|
      ensures forall k :: 0 <= k < |notices| ==> reply[k] == GoSyntax(notices[k])
    {
      reply := [];
      var i := 0;
      while i < |notices|
        invariant 0 <= i <= |notices|
        invariant |reply| == i
        invariant forall k :: 0 <= k < i ==> reply[k] == GoSyntax(notices[k])
      {
        reply := reply + [GoSyntax(notices[i])];
        i := i + 1;
      }
    }
  }

  /** A client marks everything read and then lists the mailbox: no notice
      is listed as unread, yet the dump still shows every notice, in order,
      now read. */
  method MarkReadThenList(box: Notify) returns (unread: seq<string>, dump: seq<string>)
    modifies box
    ensures unread == []
    ensures |dump| == |old(box.notices)|
    ensures forall k :: 0 <= k < |dump| ==> dump[k] == GoSyntax(old(box.notices)[k].(read := true))
  {
    box.MarkRead();
    MarkReadEffect(old(box.notices));
    unread := box.Notices();
    dump := box.Dump();
  }

  const ZeroMessages: string := "shock: 0 messages"

  /** What Last leaves in the reply, or the nil dereference of the front
      element that an empty queue meets when verbose is off. */
  datatype LastReply = Reply(message: string) | NilDereference
}
