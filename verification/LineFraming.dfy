/**
 * The console's line framing (input_buffer.c): a fixed buffer into which reads are appended, from whose
 * front complete lines are cut.  Nothing ever clears the far end of the buffer; each cut copies everything
 * behind the newline forward and leaves the last bytes where they are.
 */
module LineFraming {
  import opened Basics

  /** USERBUF_SIZE; the buffer itself has one more byte. */
  const USERBUF_SIZE := 8191
  const NL: byte := 10

  // ---- strings and lines ----

  /** The first index of c, or the length when there is none. */
  function Find(s: seq<byte>, c: byte): (i: nat)
    ensures i <= |s|
    ensures i < |s| ==> s[i] == c
    ensures c !in s[..i]
  {
    if |s| == 0 || s[0] == c then 0
    else
      var rest := Find(s[1..], c);
      assert s[..1 + rest] == [s[0]] + s[1..][..rest];
      1 + rest
  }

  lemma FindAtMost(s: seq<byte>, c: byte, i: nat)
    requires i < |s| && s[i] == c
    ensures Find(s, c) <= i
  {
    var f := Find(s, c);
    assert forall j :: 0 <= j < f ==> s[j] == s[..f][j];
  }

  lemma FindIs(s: seq<byte>, c: byte, i: nat)
    requires i < |s| && s[i] == c && c !in s[..i]
    ensures Find(s, c) == i
  {
    FindAtMost(s, c, i);
    assert forall j :: 0 <= j < i ==> s[j] == s[..i][j];
  }

  lemma FindNone(s: seq<byte>, c: byte)
    requires c !in s
    ensures Find(s, c) == |s|
  {}

  /** The newline-terminated lines of a text, and what follows the last newline. */
  function Lines(s: seq<byte>): seq<seq<byte>> {
    var k := Find(s, NL);
    if k == |s| then [] else [s[..k]] + Lines(s[k + 1..])
  }

  function Tail(s: seq<byte>): seq<byte> {
    var k := Find(s, NL);
    if k == |s| then s else Tail(s[k + 1..])
  }

  function Joined(lines: seq<seq<byte>>): seq<byte> {
    if lines == [] then [] else lines[0] + [NL] + Joined(lines[1..])
  }

  ghost predicate NoNewlines(lines: seq<seq<byte>>) {
    forall i :: 0 <= i < |lines| ==> NL !in lines[i]
  }

  /** Cutting at newlines loses nothing and leaves no newline inside a line or in the tail. */
  lemma {:induction false} SplitIsSound(s: seq<byte>)
    ensures Joined(Lines(s)) + Tail(s) == s
    ensures NoNewlines(Lines(s)) && NL !in Tail(s)
    decreases |s|
  {
    hide Find, NoNewlines, Joined;
    var k := Find(s, NL);
    if k == |s| {
      assert s[..k] == s;
      NothingJoined(s);
    } else {
      var rest := s[k + 1..];
      SplitIsSound(rest);
      JoinedFront(s[..k], Lines(rest), Tail(rest));
      assert s == s[..k] + [NL] + rest;
    }
  }

  lemma NothingJoined(s: seq<byte>)
    ensures Joined([]) + s == s && NoNewlines([])
  {}

  lemma JoinedFront(line: seq<byte>, lines: seq<seq<byte>>, tail: seq<byte>)
    ensures Joined([line] + lines) + tail == line + [NL] + (Joined(lines) + tail)
    ensures NL !in line && NoNewlines(lines) ==> NoNewlines([line] + lines)
  {
    assert ([line] + lines)[1..] == lines;
  }

  lemma SplitFront(line: seq<byte>, rest: seq<byte>)
    requires NL !in line
    ensures Lines(line + [NL] + rest) == [line] + Lines(rest)
    ensures Tail(line + [NL] + rest) == Tail(rest)
  {
    hide Find;
    var s, k := line + [NL] + rest, |line|;
    assert s[..k] == line && s[k + 1..] == rest;
    FindIs(s, NL, k);
  }

  /** There is only one way to do it. */
  lemma {:induction false} SplitIsUnique(lines: seq<seq<byte>>, tail: seq<byte>)
    requires NoNewlines(lines) && NL !in tail
    ensures Lines(Joined(lines) + tail) == lines
    ensures Tail(Joined(lines) + tail) == tail
    decreases |lines|
  {
    hide Find;
    var s := Joined(lines) + tail;
    if lines == [] {
      assert s == tail;
      FindNone(s, NL);
    } else {
      assert lines == [lines[0]] + lines[1..];
      JoinedFront(lines[0], lines[1..], tail);
      SplitFront(lines[0], Joined(lines[1..]) + tail);
      SplitIsUnique(lines[1..], tail);
    }
  }

  /** Splitting does not depend on where the text was cut into reads. */
  lemma {:induction false} SplitConcat(a: seq<byte>, b: seq<byte>)
    ensures Lines(a + b) == Lines(a) + Lines(Tail(a) + b)
    ensures Tail(a + b) == Tail(Tail(a) + b)
    decreases |a|
  {
    hide Find;
    var k := Find(a, NL);
    if k < |a| {
      assert a + b == a[..k] + [NL] + (a[k + 1..] + b);
      SplitFront(a[..k], a[k + 1..] + b);
      SplitConcat(a[k + 1..], b);
    }
  }

  lemma {:induction false} LinesEmptyIff(s: seq<byte>)
    ensures Lines(s) == [] <==> NL !in s
  {
    assert s[..|s|] == s;
    if NL !in s {
      FindNone(s, NL);
    }
  }

  // ---- the buffer ----

  /** The buffer's shape: its last byte is always zero, so it always holds a C string. */
  ghost predicate Terminated(b: seq<byte>) {
    |b| == USERBUF_SIZE + 1 && b[USERBUF_SIZE] == 0
  }

  /** The C string at the start of the buffer. */
  function CString(b: seq<byte>): seq<byte> { b[..Find(b, 0)] }

  /** The buffer after a read stored data at cur. */
  function Stored(b: seq<byte>, cur: nat, data: seq<byte>): (w: seq<byte>)
    requires |b| == USERBUF_SIZE + 1 && cur + |data| <= USERBUF_SIZE
    ensures |w| == |b|
    ensures w[USERBUF_SIZE] == b[USERBUF_SIZE]
  {
    b[..cur] + data + b[cur + |data|..]
  }

  /** Cutting the line that ends at k: the newline is overwritten, then all behind it moves to the front. */
  function Cut(b: seq<byte>, k: nat): (r: seq<byte>)
    requires |b| == USERBUF_SIZE + 1 && k < USERBUF_SIZE
    ensures |r| == |b|
    ensures r[USERBUF_SIZE] == b[USERBUF_SIZE]
  {
    b[k + 1..] + b[k := 0][USERBUF_SIZE - k..]
  }

  lemma CStringOfCut(b: seq<byte>, k: nat)
    requires Terminated(b) && k < |CString(b)|
    ensures k < USERBUF_SIZE && CString(Cut(b, k)) == CString(b)[k + 1..]
  {
    var z := Find(b, 0);
    FindAtMost(b, 0, USERBUF_SIZE);
    var r, j := Cut(b, k), z - k - 1;
    assert r[..j] == b[..z][k + 1..];
    FindIs(r, 0, j);
  }

  /** What is left in the buffer when no line is complete any more. */
  function Left(b: seq<byte>): seq<byte>
    requires Terminated(b)
    decreases |CString(b)|
  {
    var k := Find(CString(b), NL);
    if k == |CString(b)| then b
    else
      CStringOfCut(b, k);
      Left(Cut(b, k))
  }

  lemma {:induction false} LeftTerminated(b: seq<byte>)
    requires Terminated(b)
    ensures Terminated(Left(b))
    ensures CString(Left(b)) == Tail(CString(b))
    decreases |CString(b)|
  {
    var k := Find(CString(b), NL);
    if k < |CString(b)| {
      CStringOfCut(b, k);
      LeftTerminated(Cut(b, k));
    }
  }

  // ---- clean buffers ----

  ghost predicate NulFree(s: seq<byte>) { 0 !in s }

  /** The unfinished text is at the front and a zero follows it. */
  ghost predicate Guarded(b: seq<byte>, live: seq<byte>) {
    Terminated(b) && NulFree(live) && |live| <= USERBUF_SIZE && b[..|live|] == live && b[|live|] == 0
  }

  /** Moreover everything from there to the end is zero. */
  ghost predicate Clean(b: seq<byte>, live: seq<byte>) {
    Guarded(b, live) && forall i :: |live| <= i <= USERBUF_SIZE ==> b[i] == 0
  }

  /**
   * The condition under which the cuts leave nothing behind: at every cut the line's length and the number
   * of bytes then in the buffer add up to at most USERBUF_SIZE.
   */
  predicate Tidy(s: seq<byte>) {
    var k := Find(s, NL);
    k < |s| ==> k + |s| <= USERBUF_SIZE && Tidy(s[k + 1..])
  }

  lemma {:induction false} HalfFullIsTidy(s: seq<byte>)
    requires |s| <= USERBUF_SIZE / 2 + 1
    ensures Tidy(s)
    decreases |s|
  {
    var k := Find(s, NL);
    if k < |s| {
      HalfFullIsTidy(s[k + 1..]);
    }
  }

  lemma GuardedString(b: seq<byte>, live: seq<byte>)
    requires Guarded(b, live)
    ensures CString(b) == live
  {
    FindIs(b, 0, |live|);
  }

  lemma CutGuarded(b: seq<byte>, live: seq<byte>, k: nat)
    requires Guarded(b, live) && k < |live|
    ensures Guarded(Cut(b, k), live[k + 1..])
  {
    var r := Cut(b, k);
    assert r[..|live| - k - 1] == b[..|live|][k + 1..];
    assert r[|live| - k - 1] == b[|live|];
  }

  /** One cut keeps the buffer clean exactly when no live byte lies in the part that is not moved. */
  lemma CutCleanIff(b: seq<byte>, live: seq<byte>, k: nat)
    requires Clean(b, live) && k < |live|
    ensures Clean(Cut(b, k), live[k + 1..]) <==> k + |live| <= USERBUF_SIZE
  {
    CutGuarded(b, live, k);
    var r, i := Cut(b, k), USERBUF_SIZE - k;
    if k + |live| > USERBUF_SIZE {
      assert i != k && b[i] == live[i];
      assert r[i] == b[k := 0][i] == live[i];
    } else {
      forall j | |live| - k - 1 <= j <= USERBUF_SIZE ensures r[j] == 0 {
        assert r[j] == if j < i then b[k + 1 + j] else b[k := 0][j];
      }
    }
  }

  /** What one cut leaves behind no later cut removes. */
  lemma CutStaysDirty(b: seq<byte>, live: seq<byte>, k: nat)
    requires Guarded(b, live) && !Clean(b, live) && k < |live|
    ensures !Clean(Cut(b, k), live[k + 1..])
  {
    var i :| |live| <= i <= USERBUF_SIZE && b[i] != 0;
    assert Cut(b, k)[i - k - 1] == b[i];
  }

  /** One call on a guarded buffer: the tail stays in front, and the buffer is clean exactly when the text is tidy. */
  lemma {:induction false} LeftCleanIff(b: seq<byte>, live: seq<byte>)
    requires Guarded(b, live)
    ensures Guarded(Left(b), Tail(live))
    ensures Clean(Left(b), Tail(live)) <==> Clean(b, live) && Tidy(live)
    decreases |live|
  {
    hide Find, Cut, Clean, Guarded, Left, CString, Terminated;
    var k := Find(live, NL);
    LeftOf(b, live);
    if k < |live| {
      CutGuarded(b, live, k);
      if Clean(b, live) {
        CutCleanIff(b, live, k);
      } else {
        CutStaysDirty(b, live, k);
      }
      LeftCleanIff(Cut(b, k), live[k + 1..]);
    }
  }

  lemma LeftOf(b: seq<byte>, live: seq<byte>)
    requires Guarded(b, live)
    ensures var k := Find(live, NL);
            && Terminated(b) && |b| == USERBUF_SIZE + 1
            && (k == |live| ==> Left(b) == b)
            && (k < |live| ==> k < USERBUF_SIZE && Terminated(Cut(b, k)) && Left(b) == Left(Cut(b, k)))
  {
    hide Find, Cut;
    GuardedString(b, live);
  }

  lemma StoredClean(b: seq<byte>, live: seq<byte>, data: seq<byte>)
    requires Clean(b, live) && NulFree(data) && |live| + |data| <= USERBUF_SIZE
    ensures Clean(Stored(b, |live|, data), live + data)
  {
    var w := Stored(b, |live|, data);
    assert w[..|live + data|] == live + data;
    forall i | |live + data| <= i <= USERBUF_SIZE ensures w[i] == 0 {
      assert w[i] == b[i];
    }
  }

  // ---- runs ----

  datatype Io = Io(exited: bool, lines: seq<seq<byte>>, buf: seq<byte>, cur: nat)

  /** Room left for read(): the number of bytes it may return. */
  ghost predicate Fits(cur: nat, data: seq<byte>) {
    cur < USERBUF_SIZE - 1 ==> cur + |data| <= USERBUF_SIZE
  }

  /** One call: a full buffer ends the program; otherwise the lines of the C string are handed on. */
  ghost function Call(b: seq<byte>, cur: nat, data: seq<byte>): Io
    requires Terminated(b) && Fits(cur, data)
  {
    if cur >= USERBUF_SIZE - 1 then Io(true, [], b, cur)
    else
      var w := Stored(b, cur, data);
      Io(false, Lines(CString(w)), Left(w), Remaining(cur + |data|, CString(w)))
  }

  /** cur after the cuts, in 32-bit unsigned arithmetic. */
  function Remaining(cur: int, s: seq<byte>): nat {
    (cur - (|s| - |Tail(s)|)) % 0x1_0000_0000
  }

  /** Every read keeps the buffer tidy and finds room. */
  ghost predicate TidyRun(live: seq<byte>, chunks: seq<seq<byte>>)
    decreases |chunks|
  {
    chunks == [] ||
    (&& |live| < USERBUF_SIZE - 1
     && |live| + |chunks[0]| <= USERBUF_SIZE
     && NulFree(chunks[0])
     && Tidy(live + chunks[0])
     && TidyRun(Tail(live + chunks[0]), chunks[1..]))
  }

  /** Nothing but the size of what is in the buffer after each read matters when it stays half full. */
  ghost predicate HalfFullRun(live: seq<byte>, chunks: seq<seq<byte>>)
    decreases |chunks|
  {
    chunks == [] ||
    (&& NulFree(chunks[0])
     && |live| + |chunks[0]| <= USERBUF_SIZE / 2 + 1
     && HalfFullRun(Tail(live + chunks[0]), chunks[1..]))
  }

  lemma {:induction false} HalfFullRunIsTidy(live: seq<byte>, chunks: seq<seq<byte>>)
    requires HalfFullRun(live, chunks)
    ensures TidyRun(live, chunks)
    decreases |chunks|
  {
    if chunks != [] {
      HalfFullIsTidy(live + chunks[0]);
      HalfFullRunIsTidy(Tail(live + chunks[0]), chunks[1..]);
    }
  }

  function Concat(chunks: seq<seq<byte>>): seq<byte> {
    if chunks == [] then [] else chunks[0] + Concat(chunks[1..])
  }

  /** The calls one after another; the program is gone after an exit or once a read did not fit. */
  ghost function Run(b: seq<byte>, cur: nat, chunks: seq<seq<byte>>): Io
    requires Terminated(b)
    decreases |chunks|
  {
    if chunks == [] then Io(false, [], b, cur)
    else if !Fits(cur, chunks[0]) || Call(b, cur, chunks[0]).exited then Io(true, [], b, cur)
    else
      var one := Call(b, cur, chunks[0]);
      LeftTerminated(Stored(b, cur, chunks[0]));
      var rest := Run(one.buf, one.cur, chunks[1..]);
      rest.(lines := one.lines + rest.lines)
  }

  /** One call on a clean buffer frames its lines correctly, whatever it leaves behind. */
  lemma CleanCall(b: seq<byte>, live: seq<byte>, data: seq<byte>)
    requires Clean(b, live) && NulFree(data)
    requires |live| < USERBUF_SIZE - 1 && |live| + |data| <= USERBUF_SIZE
    ensures var io := Call(b, |live|, data);
            && !io.exited
            && io.lines == Lines(live + data)
            && io.cur == |Tail(live + data)|
            && Guarded(io.buf, Tail(live + data))
            && (Clean(io.buf, Tail(live + data)) <==> Tidy(live + data))
  {
    hide Left, Tidy, Lines, Tail, Stored;
    var w := Stored(b, |live|, data);
    StoredClean(b, live, data);
    GuardedString(w, live + data);
    LeftCleanIff(w, live + data);
  }

  /** Over every tidy run the lines handed on are the newline split of all the input, and cur counts its tail. */
  lemma {:induction false} TidyRunFrames(b: seq<byte>, live: seq<byte>, chunks: seq<seq<byte>>)
    requires Clean(b, live) && NL !in live && TidyRun(live, chunks)
    ensures var io := Run(b, |live|, chunks);
            && !io.exited
            && io.lines == Lines(live + Concat(chunks))
            && io.cur == |Tail(live + Concat(chunks))|
            && Clean(io.buf, Tail(live + Concat(chunks)))
    decreases |chunks|
  {
    hide Left, Tidy, Lines, Tail, Stored, Call, Clean, Guarded;
    var text := live + Concat(chunks);
    if chunks == [] {
      assert text == live;
      NoLines(live);
    } else {
      var s := live + chunks[0];
      CleanCall(b, live, chunks[0]);
      SplitIsSound(s);
      assert text == s + Concat(chunks[1..]);
      SplitConcat(s, Concat(chunks[1..]));
      CleanFacts(b, live);
      TidyRunFrames(Call(b, |live|, chunks[0]).buf, Tail(s), chunks[1..]);
    }
  }

  lemma NoLines(s: seq<byte>)
    requires NL !in s
    ensures Lines(s) == [] && Tail(s) == s
  {
    FindNone(s, NL);
  }

  lemma CleanFacts(b: seq<byte>, live: seq<byte>)
    requires Clean(b, live)
    ensures Terminated(b)
  {}

  /** From the empty buffer, on every run that keeps the buffer half full. */
  lemma FreshRunFrames(chunks: seq<seq<byte>>)
    requires HalfFullRun([], chunks)
    ensures var io := Run(Zeros(), 0, chunks);
            && !io.exited
            && io.lines == Lines(Concat(chunks))
            && io.cur == |Tail(Concat(chunks))|
            && Clean(io.buf, Tail(Concat(chunks)))
  {
    hide Left, Tidy, Lines, Tail, Stored, Call, Run, TidyRun, HalfFullRun;
    HalfFullRunIsTidy([], chunks);
    TidyRunFrames(Zeros(), [], chunks);
    assert [] + Concat(chunks) == Concat(chunks);
  }

  function Zeros(): (b: seq<byte>)
    ensures Terminated(b) && Clean(b, [])
  {
    seq(USERBUF_SIZE + 1, i => 0)
  }

  // ---- a buffer that is not clean ----

  /** What a call reads beyond its own text: the bytes from there to the next zero. */
  function Behind(b: seq<byte>, cur: nat): seq<byte>
    requires cur <= |b|
  {
    CString(b[cur..])
  }

  lemma StringRunsOn(b: seq<byte>, live: seq<byte>)
    requires Terminated(b) && NulFree(live) && |live| <= USERBUF_SIZE && b[..|live|] == live
    ensures CString(b) == live + Behind(b, |live|)
  {
    var rest := b[|live|..];
    var z := Find(rest, 0);
    FindAtMost(rest, 0, USERBUF_SIZE - |live|);
    assert b[..|live| + z] == live + rest[..z];
    FindIs(b, 0, |live| + z);
  }

  lemma {:induction false} ExtraLines(a: seq<byte>, junk: seq<byte>)
    ensures Lines(a + junk) == Lines(a) <==> NL !in junk
  {
    SplitConcat(a, junk);
    SplitIsSound(a);
    LinesEmptyIff(Tail(a) + junk);
  }

  /** Any call, clean buffer or not, frames its text correctly exactly when it meets no stale newline. */
  lemma FramesIff(b: seq<byte>, live: seq<byte>, data: seq<byte>)
    requires Terminated(b) && NulFree(live) && NulFree(data) && |live| < USERBUF_SIZE - 1
    requires |live| + |data| <= USERBUF_SIZE && b[..|live|] == live
    ensures Call(b, |live|, data).lines == Lines(live + data)
            <==> NL !in Behind(b, |live| + |data|)
  {
    hide Left, Lines, Tail;
    var w, s := Stored(b, |live|, data), live + data;
    assert w[..|s|] == s;
    assert w[|s|..] == b[|s|..];
    StringRunsOn(w, s);
    ExtraLines(s, Behind(w, |s|));
  }

  // ---- runs that frame their input ----

  /** No read of the run overflows the buffer and no call meets a stale newline behind its text. */
  ghost predicate StaleFree(b: seq<byte>, live: seq<byte>, chunks: seq<seq<byte>>)
    requires Terminated(b)
    decreases |chunks|
  {
    chunks == [] ||
    (&& |live| < USERBUF_SIZE - 1
     && |live| + |chunks[0]| <= USERBUF_SIZE
     && NL !in Behind(b, |live| + |chunks[0]|)
     && (LeftTerminated(Stored(b, |live|, chunks[0]));
         StaleFree(Call(b, |live|, chunks[0]).buf, Tail(live + chunks[0]), chunks[1..])))
  }

  ghost predicate AllNulFree(chunks: seq<seq<byte>>) { forall i :: 0 <= i < |chunks| ==> NulFree(chunks[i]) }

  /** After the first k reads: the program runs, and the lines handed on are those of all the input so far. */
  ghost predicate FramedAt(b: seq<byte>, live: seq<byte>, chunks: seq<seq<byte>>, k: nat)
    requires Terminated(b) && k <= |chunks|
  {
    var io := Run(b, |live|, chunks[..k]);
    !io.exited && io.lines == Lines(live + Concat(chunks[..k]))
  }

  ghost predicate FramedThroughout(b: seq<byte>, live: seq<byte>, chunks: seq<seq<byte>>)
    requires Terminated(b)
  {
    forall k :: 0 <= k <= |chunks| ==> FramedAt(b, live, chunks, k)
  }

  /** The unfinished text is at the front of the buffer; what lies behind it does not matter. */
  ghost predicate Holding(b: seq<byte>, live: seq<byte>) {
    Terminated(b) && NulFree(live) && NL !in live && |live| <= USERBUF_SIZE && b[..|live|] == live
  }

  /** A call that meets no stale newline: its lines and its counter are those of its text, which stays in front. */
  lemma StaleFreeCall(b: seq<byte>, live: seq<byte>, data: seq<byte>)
    requires Holding(b, live) && NulFree(data) && |live| < USERBUF_SIZE - 1 && |live| + |data| <= USERBUF_SIZE
    requires NL !in Behind(b, |live| + |data|)
    ensures var io := Call(b, |live|, data);
            && !io.exited && io.lines == Lines(live + data)
            && io.cur == |Tail(live + data)| && Holding(io.buf, Tail(live + data))
  {
    hide Left, Lines, Tail, Behind, CString;
    var w, s := Stored(b, |live|, data), live + data;
    var junk := Behind(w, |s|);
    assert w[..|s|] == s && w[|s|..] == b[|s|..];
    SameBehind(w, b, |s|);
    StringRunsOn(w, s);
    SplitWithJunk(s, junk);
    LeftTerminated(w);
    SplitIsSound(s);
    TailIsSuffix(s);
    FrontOfString(Left(w), Tail(s), junk);
  }

  lemma SameBehind(w: seq<byte>, b: seq<byte>, cur: nat)
    requires cur <= |b| && cur <= |w| && w[cur..] == b[cur..]
    ensures Behind(w, cur) == Behind(b, cur)
  {
  }

  /** Junk without a newline only lengthens the tail. */
  lemma SplitWithJunk(s: seq<byte>, junk: seq<byte>)
    requires NL !in junk
    ensures Lines(s + junk) == Lines(s) && Tail(s + junk) == Tail(s) + junk
    ensures |s| < 0x1_0000_0000 ==> Remaining(|s|, s + junk) == |Tail(s)|
  {
    hide Find, Lines, Tail, Remaining;
    SplitConcat(s, junk);
    SplitIsSound(s);
    NoLines(Tail(s) + junk);
    TailIsSuffix(s);
    assert Lines(s) + [] == Lines(s);
    RemainingIs(|s|, s + junk);
  }

  lemma {:induction false} TailIsSuffix(s: seq<byte>)
    ensures |Tail(s)| <= |s| && Tail(s) == s[|s| - |Tail(s)|..]
    decreases |s|
  {
    hide Find;
    var k := Find(s, NL);
    if k < |s| {
      var rest := s[k + 1..];
      TailIsSuffix(rest);
      assert Tail(s) == Tail(rest);
      hide Tail;
      var t := Tail(rest);
      assert s[|s| - |t|..] == rest[|rest| - |t|..];
    }
  }

  lemma FrontOfString(r: seq<byte>, live: seq<byte>, junk: seq<byte>)
    requires Terminated(r) && CString(r) == live + junk
    ensures NulFree(live) && |live| <= USERBUF_SIZE && r[..|live|] == live
  {
    FindAtMost(r, 0, USERBUF_SIZE);
    assert r[..|live|] == CString(r)[..|live|];
    assert 0 !in CString(r);
    assert forall i :: 0 <= i < |live| ==> live[i] == CString(r)[i];
  }

  lemma ConcatFront(live: seq<byte>, chunks: seq<seq<byte>>)
    requires chunks != []
    ensures live + Concat(chunks) == live + chunks[0] + Concat(chunks[1..])
  {
  }

  lemma NextRead(b: seq<byte>, live: seq<byte>, chunks: seq<seq<byte>>, k: nat)
    requires Holding(b, live) && 0 < k <= |chunks| && NulFree(chunks[0])
    requires |live| < USERBUF_SIZE - 1 && |live| + |chunks[0]| <= USERBUF_SIZE
    requires NL !in Behind(b, |live| + |chunks[0]|)
    ensures var io := Call(b, |live|, chunks[0]);
            && Terminated(io.buf)
            && (FramedAt(b, live, chunks, k) <==> FramedAt(io.buf, Tail(live + chunks[0]), chunks[1..], k - 1))
  {
    hide Left, Lines, Tail, Behind, Stored, Holding, Call;
    var s := live + chunks[0];
    HoldingFacts(b, live);
    var io := Call(b, |live|, chunks[0]);
    StaleFreeCall(b, live, chunks[0]);
    HoldingFacts(io.buf, Tail(s));
    assert chunks[..k][1..] == chunks[1..][..k - 1] && chunks[..k][0] == chunks[0];
    ConcatFront(live, chunks[..k]);
    SplitConcat(s, Concat(chunks[1..][..k - 1]));
    RunUnfolds(b, |live|, chunks[..k]);
    Cancel(Lines(s), Run(io.buf, io.cur, chunks[1..][..k - 1]).lines, Lines(Tail(s) + Concat(chunks[1..][..k - 1])));
  }

  lemma HoldingFacts(b: seq<byte>, live: seq<byte>)
    requires Holding(b, live)
    ensures Terminated(b)
  {
  }

  lemma Cancel<T>(a: seq<T>, x: seq<T>, y: seq<T>)
    ensures a + x == a + y <==> x == y
  {
    assert (a + x)[|a|..] == x && (a + y)[|a|..] == y;
  }

  lemma RunUnfolds(b: seq<byte>, cur: nat, chunks: seq<seq<byte>>)
    requires Terminated(b) && chunks != [] && Fits(cur, chunks[0]) && !Call(b, cur, chunks[0]).exited
    ensures var one := Call(b, cur, chunks[0]);
            && Terminated(one.buf)
            && Run(b, cur, chunks).exited == Run(one.buf, one.cur, chunks[1..]).exited
            && Run(b, cur, chunks).lines == one.lines + Run(one.buf, one.cur, chunks[1..]).lines
  {
    hide Left, Lines, Tail, Stored;
    LeftTerminated(Stored(b, cur, chunks[0]));
  }

  /** Framed correctly after the first read exactly when that read fits and meets no stale newline. */
  lemma FirstReadIff(b: seq<byte>, live: seq<byte>, chunks: seq<seq<byte>>)
    requires Holding(b, live) && chunks != [] && NulFree(chunks[0])
    ensures FramedAt(b, live, chunks, 1)
            <==> && |live| < USERBUF_SIZE - 1 && |live| + |chunks[0]| <= USERBUF_SIZE
                 && NL !in Behind(b, |live| + |chunks[0]|)
  {
    hide Left, Lines, Tail, Behind, Stored, CString;
    var c := chunks[0];
    assert chunks[..1] == [c] && [c][1..] == [];
    assert Concat([c]) == c by { assert c + [] == c; }
    if |live| < USERBUF_SIZE - 1 && |live| + |c| <= USERBUF_SIZE {
      RunUnfolds(b, |live|, [c]);
      assert Call(b, |live|, c).lines + [] == Call(b, |live|, c).lines;
      FramesIff(b, live, c);
    }
  }

  /** A run of reads without NUL frames its input correctly at every moment if and only if every read fits and no
      call meets a stale newline. The buffer need not be clean. */
  lemma {:induction false} RunFrames(b: seq<byte>, live: seq<byte>, chunks: seq<seq<byte>>)
    requires Holding(b, live) && AllNulFree(chunks)
    ensures Terminated(b)
    ensures FramedThroughout(b, live, chunks) <==> StaleFree(b, live, chunks)
    decreases |chunks|
  {
    hide Left, Lines, Tail, Behind, Stored, Call, FramedAt, Holding;
    HoldingFacts(b, live);
    FramedAtStart(b, live, chunks);
    if chunks != [] {
      FirstReadIff(b, live, chunks);
      if FramedAt(b, live, chunks, 1) {
        StaleFreeCall(b, live, chunks[0]);
        var io, rest := Call(b, |live|, chunks[0]), chunks[1..];
        HoldingFacts(io.buf, Tail(live + chunks[0]));
        RunFrames(io.buf, Tail(live + chunks[0]), rest);
        forall k | 0 < k <= |chunks|
          ensures FramedAt(b, live, chunks, k) <==> FramedAt(io.buf, Tail(live + chunks[0]), rest, k - 1)
        {
          NextRead(b, live, chunks, k);
        }
        FramedShift(b, live, chunks, io.buf, Tail(live + chunks[0]));
      }
    }
  }

  lemma FramedShift(b: seq<byte>, live: seq<byte>, chunks: seq<seq<byte>>, b': seq<byte>, live': seq<byte>)
    requires Terminated(b) && Terminated(b') && chunks != [] && FramedAt(b, live, chunks, 0)
    requires forall k :: 0 < k <= |chunks| ==> (FramedAt(b, live, chunks, k) <==> FramedAt(b', live', chunks[1..], k - 1))
    ensures FramedThroughout(b, live, chunks) <==> FramedThroughout(b', live', chunks[1..])
  {
    hide FramedAt;
    if FramedThroughout(b, live, chunks) {
      forall k | 0 <= k <= |chunks[1..]|
        ensures FramedAt(b', live', chunks[1..], k)
      {
        assert FramedAt(b, live, chunks, k + 1);
      }
    }
  }

  lemma FramedAtStart(b: seq<byte>, live: seq<byte>, chunks: seq<seq<byte>>)
    requires Holding(b, live)
    ensures FramedAt(b, live, chunks, 0)
  {
    assert chunks[..0] == [] && live + [] == live;
    NoLines(live);
  }

  /** x repeated n times. */
  function Xs(n: nat): (s: seq<byte>)
    ensures |s| == n && NL !in s && NulFree(s)
  {
    seq(n, i => 120)
  }

  /** What the first call of the counterexample leaves behind: an empty text and a newline at index 4095. */
  lemma StaleNewline()
    ensures |Xs(4095) + [NL, NL]| == USERBUF_SIZE / 2 + 2
    ensures var io := Call(Zeros(), 0, Xs(4095) + [NL, NL]);
            && io.lines == [Xs(4095), []]
            && io.cur == 0
            && Terminated(io.buf)
            && io.buf[4095] == NL && (forall i :: 4095 < i <= USERBUF_SIZE ==> io.buf[i] == 0)
  {
    hide Left, Tidy, Lines, Tail, Stored;
    var x := Xs(4095);
    var s, w := x + [NL, NL], Stored(Zeros(), 0, x + [NL, NL]);
    StoredClean(Zeros(), [], s);
    assert [] + s == s;
    GuardedString(w, s);
    TwoLines(x);
    TwoCuts(w, x);
  }

  lemma TwoLines(x: seq<byte>)
    requires NL !in x
    ensures Lines(x + [NL, NL]) == [x, []] && Tail(x + [NL, NL]) == []
  {
    assert Joined([[]]) == [NL];
    assert [x, []][1..] == [[]];
    assert Joined([x, []]) + [] == x + [NL, NL];
    SplitIsUnique([x, []], []);
  }

  lemma TwoCuts(w: seq<byte>, x: seq<byte>)
    requires |x| == 4095 && NL !in x && Clean(w, x + [NL, NL])
    ensures var r := Left(w);
            Terminated(r) && r[4095] == NL && (forall i :: 4095 < i <= USERBUF_SIZE ==> r[i] == 0)
  {
    var s := x + [NL, NL];
    assert s[..4095] == x;
    FindIs(s, NL, 4095);
    GuardedString(w, s);
    CutGuarded(w, s, 4095);
    var r1 := Cut(w, 4095);
    assert s[4096..] == [NL];
    GuardedString(r1, [NL]);
    CutGuarded(r1, [NL], 0);
    var r2 := Cut(r1, 0);
    assert [NL][1..] == [];
    GuardedString(r2, []);
    assert r1[4096] == w[4096] == s[4096];
    assert Left(w) == Left(r1) == Left(r2) == r2;
    forall i | 4095 < i <= USERBUF_SIZE ensures r2[i] == 0 {
      assert i < USERBUF_SIZE ==> r2[i] == r1[i + 1] == w[i + 1];
    }
  }

  /**
   * The bound is sharp.  With one byte more than HalfFullRun admits in the buffer, 4095 letters and two
   * newlines leave a stale newline; 4095 further letters, which end no line, are then handed on as a line,
   * and cur wraps around below zero, so that the next call ends the program.
   */
  lemma OneByteTooMany()
    ensures var one := Call(Zeros(), 0, Xs(4095) + [NL, NL]);
            && Terminated(one.buf) && one.cur == 0
            && var two := Call(one.buf, 0, Xs(4095));
               && Lines(Xs(4095)) == []
               && two.lines == [Xs(4095)]
               && two.cur == 0xffff_ffff
               && Terminated(two.buf)
               && Call(two.buf, two.cur, []).exited
  {
    hide Left, Lines, Tail, Stored, Xs;
    StaleNewline();
    var b, x := Call(Zeros(), 0, Xs(4095) + [NL, NL]).buf, Xs(4095);
    StoredAtFront(b, x);
    var w := Stored(b, 0, x);
    LeftTerminated(w);
    assert Joined([x]) + [] == x + [NL];
    SplitIsUnique([x], []);
    NoLines(x);
  }

  lemma StoredAtFront(b: seq<byte>, x: seq<byte>)
    requires Terminated(b) && |x| == 4095 && NulFree(x)
    requires b[4095] == NL && forall i :: 4095 < i <= USERBUF_SIZE ==> b[i] == 0
    ensures Terminated(Stored(b, 0, x)) && CString(Stored(b, 0, x)) == x + [NL]
  {
    var w := Stored(b, 0, x);
    assert w[..4096] == x + [NL];
    assert w[4096] == b[4096];
    FindIs(w, 0, 4096);
  }

  // ---- the buffer in memory ----

  class UserBuf {
    const buf: array<byte>
    /** An unsigned 32-bit counter. */
    var cur: nat

    ghost predicate Valid()
      reads this, buf
    {
      Terminated(buf[..])
    }

    constructor ()
      ensures Valid() && fresh(buf)
      ensures buf[..] == Zeros() && cur == 0
    {
      buf := new byte[USERBUF_SIZE + 1](_ => 0);
      cur := 0;
    }

    /** strchr(buf, '\n'): the first newline before the terminating zero. */
    method FindNewline() returns (k: Option<nat>)
      requires Valid()
      ensures k == None <==> NL !in CString(buf[..])
      ensures k.Some? ==> k.value < |CString(buf[..])| && k.value == Find(CString(buf[..]), NL)
    {
      hide Find;
      var i := 0;
      while buf[i] != NL && buf[i] != 0
        invariant 0 <= i <= USERBUF_SIZE
        invariant NL !in buf[..i] && 0 !in buf[..i]
        decreases USERBUF_SIZE - i
      {
        i := i + 1;
      }
      ghost var b, z := buf[..], Find(buf[..], 0);
      assert b[..i] == buf[..i];
      if buf[i] == 0 {
        FindIs(b, 0, i);
        k := None;
      } else {
        BeforeTheZero(b, i);
        assert b[..z][..i] == b[..i];
        FindIs(b[..z], NL, i);
        k := Some(i);
      }
    }

    /** Overwrite the newline at k and move everything behind it to the front. */
    method CutLine(k: nat)
      requires Valid() && k < USERBUF_SIZE
      modifies buf
      ensures buf[..] == Cut(old(buf[..]), k)
    {
      buf[k] := 0;
      forall i | 0 <= i < USERBUF_SIZE - k {
        buf[i] := buf[k + 1 + i];
      }
    }

    /** Store what the read returned at cur. */
    method Store(data: seq<byte>)
      requires Valid() && cur + |data| <= USERBUF_SIZE
      modifies buf
      ensures buf[..] == Stored(old(buf[..]), cur, data)
    {
      forall i | 0 <= i < |data| {
        buf[cur + i] := data[i];
      }
    }

    /**
     * process_user_input, with the bytes that read() returned (none on end of file or error).  The lines are
     * those given to handle_line, in order.
     */
    method ProcessUserInput(data: seq<byte>) returns (exited: bool, lines: seq<seq<byte>>)
      requires Valid() && Fits(cur, data)
      modifies this, buf
      ensures Valid()
      ensures Io(exited, lines, buf[..], cur) == Call(old(buf[..]), old(cur), data)
    {
      hide Find, Cut, Stored, CString, SameOutcome, Left, Lines, Tail, Remaining;
      lines := [];
      if cur >= USERBUF_SIZE - 1 {
        return true, [];
      }
      exited := false;
      Store(data);
      cur := cur + |data|;
      ghost var w, end := buf[..], cur;
      SameOutcomeStart(w, end);
      var k := FindNewline();
      while k.Some?
        invariant Valid()
        invariant k == None <==> NL !in CString(buf[..])
        invariant k.Some? ==> k.value < |CString(buf[..])| && k.value == Find(CString(buf[..]), NL)
        invariant SameOutcome(lines, buf[..], cur, w, end)
        invariant 0 <= cur < 0x1_0000_0000
        decreases |CString(buf[..])|
      {
        ghost var b := buf[..];
        CStringOfCut(b, k.value);
        SameOutcomeStep(lines, b, cur, w, end);
        lines := lines + [buf[..k.value]];
        CutLine(k.value);
        cur := (cur - (k.value + 1)) % 0x1_0000_0000;
        k := FindNewline();
      }
      SameOutcomeEnd(lines, buf[..], cur, w, end);
    }
  }

  /** What the loop still has to do from (b, cur), after handing on lines, is what it had to do from (w, end). */
  ghost predicate SameOutcome(lines: seq<seq<byte>>, b: seq<byte>, cur: int, w: seq<byte>, end: int) {
    && Terminated(b) && Terminated(w)
    && lines + Lines(CString(b)) == Lines(CString(w))
    && Left(b) == Left(w)
    && Remaining(cur, CString(b)) == Remaining(end, CString(w))
  }

  lemma SameOutcomeStart(w: seq<byte>, end: int)
    requires Terminated(w)
    ensures SameOutcome([], w, end, w, end)
  {}

  lemma SameOutcomeStep(lines: seq<seq<byte>>, b: seq<byte>, cur: int, w: seq<byte>, end: int)
    requires SameOutcome(lines, b, cur, w, end) && NL in CString(b)
    ensures var k := Find(CString(b), NL);
            && k < |CString(b)| && k < USERBUF_SIZE
            && SameOutcome(lines + [b[..k]], Cut(b, k), (cur - (k + 1)) % 0x1_0000_0000, w, end)
  {
    hide Find, Cut, CString;
    var s := CString(b);
    var k := Find(s, NL);
    assert s[..|s|] == s;
    CStringOfCut(b, k);
    PrefixOfString(b, k);
    RemainingStep(cur, s, k);
  }

  lemma SameOutcomeEnd(lines: seq<seq<byte>>, b: seq<byte>, cur: int, w: seq<byte>, end: int)
    requires SameOutcome(lines, b, cur, w, end) && NL !in CString(b) && 0 <= cur < 0x1_0000_0000
    ensures lines == Lines(CString(w)) && b == Left(w) && cur == Remaining(end, CString(w))
  {
    hide Find;
    NoLines(CString(b));
    NothingLeft(b);
  }

  lemma BeforeTheZero(b: seq<byte>, i: nat)
    requires Terminated(b) && i <= USERBUF_SIZE && 0 !in b[..i] && b[i] != 0
    ensures i < Find(b, 0)
  {
    FindAtMost(b, 0, USERBUF_SIZE);
    assert forall j :: 0 <= j < i ==> b[j] == b[..i][j];
  }

  lemma PrefixOfString(b: seq<byte>, k: nat)
    requires k < |CString(b)|
    ensures k < |b| && b[..k] == CString(b)[..k]
  {}

  lemma NothingLeft(b: seq<byte>)
    requires Terminated(b) && NL !in CString(b)
    ensures Left(b) == b
  {
    FindNone(CString(b), NL);
  }

  lemma RemainingStep(cur: int, s: seq<byte>, k: nat)
    requires k < |s| && k == Find(s, NL)
    ensures Remaining((cur - (k + 1)) % 0x1_0000_0000, s[k + 1..]) == Remaining(cur, s)
  {
    hide Find;
    var rest := s[k + 1..];
    assert Tail(s) == Tail(rest);
    hide *;
    ModMinus(cur - (k + 1), |rest| - |Tail(rest)|);
    RemainingIs(cur, s);
    RemainingIs((cur - (k + 1)) % 0x1_0000_0000, rest);
  }

  lemma RemainingIs(cur: int, s: seq<byte>)
    ensures Remaining(cur, s) == (cur - (|s| - |Tail(s)|)) % 0x1_0000_0000
  {
    hide Tail;
  }

  lemma ModMinus(x: int, y: int)
    ensures (x % 0x1_0000_0000 - y) % 0x1_0000_0000 == (x - y) % 0x1_0000_0000
  {}
}
