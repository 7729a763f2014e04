/** Comments in a PNM header: where the scanner reads past them as intended, and where it does not. */
module PnmComments {
  import opened PnmHeader

  // The bytes outside comments. A comment runs from `#` through the end of its line.
  function Drop(s: seq<Byte>, comment: bool): seq<Byte> {
    if s == [] then []
    else if comment then Drop(s[1..], s[0] != 10)
    else if s[0] == 35 then Drop(s[1..], true)
    else [s[0]] + Drop(s[1..], false)
  }

  /** The intended reading: comments may stand anywhere, also inside a token, and their newline is part
      of them. */
  function Intended(pnm: seq<Byte>): Outcome {
    if |pnm| < 2 then Rejected else Peek(pnm[..2] + Drop(pnm[2..], false))
  }

  lemma {:induction false} DropPlain(a: seq<Byte>, b: seq<Byte>)
    requires HASH !in a
    ensures Drop(a + b, false) == a + Drop(b, false)
  {
    if a == [] {
      assert a + b == b;
    } else {
      assert (a + b)[1..] == a[1..] + b;
      DropPlain(a[1..], b);
    }
  }

  lemma {:induction false} DropLine(text: seq<Byte>, b: seq<Byte>)
    requires NEWLINE !in text
    ensures Drop(text + [NEWLINE] + b, true) == Drop(b, false)
  {
    if text == [] {
      assert (text + [NEWLINE] + b)[1..] == b;
    } else {
      assert (text + [NEWLINE] + b)[1..] == text[1..] + [NEWLINE] + b;
      DropLine(text[1..], b);
    }
  }

  // Everything in a header but the two numbers, of which it keeps the lengths.
  datatype Layout = Layout(magic: Byte, s1: seq<Byte>, width: nat, s2: seq<Byte>, height: nat, s3: Byte, rest: seq<Byte>)

  predicate ValidLayout(l: Layout) {
    Spaces(l.s1) && Spaces(l.s2) && IsSpace(l.s3) && l.width > 0 && l.height > 0
  }

  predicate Sized(l: Layout, w: seq<Byte>, h: seq<Byte>) {
    Digits(w) && Digits(h) && |w| == l.width && |h| == l.height
  }

  function Plain(l: Layout, w: seq<Byte>, h: seq<Byte>): seq<Byte> {
    Header(l.magic, l.s1, w, l.s2, h, l.s3, l.rest)
  }

  // Where the width starts and ends, and where the height does.
  function WidthAt(l: Layout): nat { 2 + |l.s1| }

  function WidthEnd(l: Layout): nat { WidthAt(l) + l.width }

  function HeightAt(l: Layout): nat { WidthEnd(l) + |l.s2| }

  function HeightEnd(l: Layout): nat { HeightAt(l) + l.height }

  // The header with one comment in front of position i.
  function Commented(l: Layout, w: seq<Byte>, h: seq<Byte>, i: nat, text: seq<Byte>): seq<Byte>
    requires i <= |Plain(l, w, h)|
  {
    Plain(l, w, h)[..i] + [35] + text + [10] + Plain(l, w, h)[i..]
  }

  lemma PlainParts(l: Layout, w: seq<Byte>, h: seq<Byte>)
    requires ValidLayout(l) && Sized(l, w, h)
    ensures var pnm := Plain(l, w, h);
            && HeightEnd(l) < |pnm| && pnm[1] == l.magic && pnm[HeightEnd(l)] == l.s3 && Here(pnm, HeightEnd(l), [l.s3])
            && Here(pnm, 2, l.s1) && Here(pnm, WidthAt(l), w) && Here(pnm, WidthEnd(l), l.s2) && Here(pnm, HeightAt(l), h)
  {
    HeaderParts(Plain(l, w, h), l.magic, l.s1, w, l.s2, h, l.s3, l.rest);
  }

  lemma NoHash(l: Layout, w: seq<Byte>, h: seq<Byte>)
    requires ValidLayout(l) && Sized(l, w, h)
    ensures var pnm := Plain(l, w, h);
            && HeightEnd(l) < |pnm| && HASH !in pnm[2..HeightEnd(l) + 1] && pnm[HeightEnd(l) + 1..] == l.rest
            && pnm[..2] == [80, l.magic]
            && pnm[..HeightEnd(l) + 1] == [80, l.magic] + l.s1 + w + l.s2 + h + [l.s3]
  {
    var pnm, part := Plain(l, w, h), l.s1 + w + l.s2 + h + [l.s3];
    assert pnm == [80, l.magic] + part + l.rest;
    assert pnm[2..HeightEnd(l) + 1] == part;
    forall b | b in part ensures b != HASH {
      var k :| 0 <= k < |part| && part[k] == b;
    }
  }

  lemma DropInserted(pnm: seq<Byte>, i: nat, e: nat, text: seq<Byte>)
    requires 2 <= i <= e <= |pnm| && HASH !in pnm[2..e] && NEWLINE !in text
    ensures var c := pnm[..i] + [HASH] + text + [NEWLINE] + pnm[i..];
            c[..2] + Drop(c[2..], false) == pnm[..e] + Drop(pnm[e..], false)
  {
    hide Drop;
    var c, a, b, rest := pnm[..i] + [HASH] + text + [NEWLINE] + pnm[i..], pnm[2..i], pnm[i..e], pnm[e..];
    assert a + b == pnm[2..e];
    assert HASH !in a && HASH !in b;
    assert pnm[i..] == b + rest;
    var line := text + [NEWLINE] + (b + rest);
    assert c[2..] == a + ([HASH] + line);
    DropPlain(a, [HASH] + line);
    DropHash(line);
    DropLine(text, b + rest);
    DropPlain(b, rest);
    assert c[..2] == pnm[..2];
    assert pnm[..2] + (a + (b + Drop(rest, false))) == pnm[..e] + Drop(rest, false);
  }

  /** Dropping the comment leaves the header: its numbers are what a commented header stands for. */
  lemma IntendedHeader(l: Layout, w: seq<Byte>, h: seq<Byte>, i: nat, text: seq<Byte>)
    requires ValidLayout(l) && Sized(l, w, h) && 2 <= i <= HeightEnd(l) && NEWLINE !in text
    ensures i <= |Plain(l, w, h)| && Intended(Commented(l, w, h, i, text)) == Peek(Plain(l, w, h))
  {
    var pnm := Plain(l, w, h);
    NoHash(l, w, h);
    hide Peek, Drop, Header, Digits, Spaces, Accumulate, Channels;
    DropInserted(pnm, i, HeightEnd(l) + 1, text);
    var l' := l.(rest := Drop(l.rest, false));
    PlainRest(l, l', w, h);
    HeaderScan(l.magic, l.s1, w, l.s2, h, l.s3, l.rest);
    HeaderScan(l.magic, l.s1, w, l.s2, h, l.s3, l'.rest);
  }

  lemma DropHash(s: seq<Byte>)
    ensures Drop([HASH] + s, false) == Drop(s, true)
  {
    assert ([HASH] + s)[1..] == s;
  }

  lemma PlainRest(l: Layout, l': Layout, w: seq<Byte>, h: seq<Byte>)
    requires l' == l.(rest := l'.rest) && Sized(l, w, h)
    ensures HeightEnd(l) < |Plain(l, w, h)| && Plain(l', w, h) == Plain(l, w, h)[..HeightEnd(l) + 1] + l'.rest
  {
    assert Plain(l, w, h)[..HeightEnd(l) + 1] == [80, l.magic] + l.s1 + w + l.s2 + h + [l.s3];
  }

  // What the scanner knows in front of position i of a header.
  datatype Progress = Progress(state: nat, w: nat, h: nat)

  function Before(l: Layout, w: seq<Byte>, h: seq<Byte>, i: nat): (p: Progress)
    requires Sized(l, w, h) && 2 <= i <= HeightEnd(l)
    ensures p.state < 3
  {
    if i == 2 then Progress(0, 0, 0)
    else if i <= WidthAt(l) then Progress(1, 0, 0)
    else if i <= WidthEnd(l) then Progress(1, Value(w[..i - WidthAt(l)]), 0)
    else if i <= HeightAt(l) then Progress(2, Value(w), 0)
    else Progress(2, Value(w), Value(h[..i - HeightAt(l)]))
  }

  lemma SamePrefix(pnm: seq<Byte>, c: seq<Byte>, i: nat, at: nat, part: seq<Byte>, n: nat)
    requires Shared(c, pnm, i) && Here(pnm, at, part) && n <= |part| && at + n <= i
    ensures Here(c, at, part[..n])
  {
    assert c[at..at + n] == c[..i][at..at + n] == pnm[..i][at..at + n] == pnm[at..at + n] == pnm[at..at + |part|][..n];
  }

  lemma SamePiece(pnm: seq<Byte>, c: seq<Byte>, i: nat, at: nat, part: seq<Byte>)
    requires Shared(c, pnm, i) && Here(pnm, at, part) && at + |part| <= i
    ensures Here(c, at, part)
  {
    SamePrefix(pnm, c, i, at, part, |part|);
    assert part[..|part|] == part;
  }

  lemma PartOfDigits(s: seq<Byte>, n: nat)
    requires Digits(s) && n <= |s|
    ensures Digits(s[..n]) && (n == |s| ==> s[..n] == s)
  {
  }

  lemma PartOfSpaces(s: seq<Byte>, n: nat)
    requires Spaces(s) && 0 < n <= |s|
    ensures Spaces(s[..n])
  {
  }

  lemma HereAt(pnm: seq<Byte>, at: nat, part: seq<Byte>)
    requires Here(pnm, at, part) && part != []
    ensures at < |pnm| && pnm[at] == part[0]
  {
  }

  /** The scanner gets to the comment with what it has read, or overflows before it. */
  lemma ReachComment(l: Layout, w: seq<Byte>, h: seq<Byte>, i: nat, text: seq<Byte>)
    requires ValidLayout(l) && Sized(l, w, h) && 2 <= i <= HeightEnd(l)
    ensures i <= |Plain(l, w, h)|
    ensures var p := Before(l, w, h, i);
            var c := Commented(l, w, h, i, text);
            Peek(c) == if p.w > MAX_INT || p.h > MAX_INT then Undefined else Scan(c, i, p.state, p.w, p.h, Channels(l.magic))
  {
    PlainParts(l, w, h);
    var pnm, c := Plain(l, w, h), Commented(l, w, h, i, text);
    assert c[..i] == pnm[..i] && c[i] == HASH && c[1] == pnm[1];
    hide Here, Commented, Plain;
    Reach(l, w, h, pnm, c, i);
  }

  lemma Reach(l: Layout, w: seq<Byte>, h: seq<Byte>, pnm: seq<Byte>, c: seq<Byte>, i: nat)
    requires ValidLayout(l) && Sized(l, w, h) && 2 <= i <= HeightEnd(l)
    requires Here(pnm, 2, l.s1) && Here(pnm, WidthAt(l), w) && Here(pnm, WidthEnd(l), l.s2) && Here(pnm, HeightAt(l), h)
    requires Shared(c, pnm, i) && i < |c| && c[i] == HASH && c[1] == l.magic
    ensures var p := Before(l, w, h, i);
            Peek(c) == if p.w > MAX_INT || p.h > MAX_INT then Undefined else Scan(c, i, p.state, p.w, p.h, Channels(l.magic))
  {
    hide Scan, Here, Channels, Accumulate, Spaces, Digits, Shared;
    var ch := Channels(l.magic);
    assert Peek(c) == Scan(c, 2, 0, 0, 0, ch);
    if 2 < i <= WidthAt(l) {
      SamePrefix(pnm, c, i, 2, l.s1, i - 2);
      PartOfSpaces(l.s1, i - 2);
      ScanSpaces(c, 2, 0, 0, 0, ch, l.s1[..i - 2]);
    } else if WidthAt(l) < i {
      ReachWidth(l, w, pnm, c, i, ch);
      var n := if i <= WidthEnd(l) then i - WidthAt(l) else l.width;
      SamePrefix(pnm, c, i, WidthAt(l), w, n);
      PartOfDigits(w, n);
      ScanDigits(c, WidthAt(l), 1, 0, 0, ch, w[..n]);
      if WidthEnd(l) < i && Value(w) <= MAX_INT {
        ReachHeight(l, w, h, pnm, c, i, ch);
      }
    }
  }

  lemma ReachWidth(l: Layout, w: seq<Byte>, pnm: seq<Byte>, c: seq<Byte>, i: nat, ch: nat)
    requires Spaces(l.s1) && Digits(w) && w != [] && Here(pnm, 2, l.s1) && Here(pnm, WidthAt(l), w)
    requires WidthAt(l) < i < |c| && Shared(c, pnm, i)
    ensures Scan(c, 2, 0, 0, 0, ch) == Scan(c, WidthAt(l), 1, 0, 0, ch)
  {
    hide Scan, Spaces, Here, Shared;
    SamePiece(pnm, c, i, 2, l.s1);
    SamePrefix(pnm, c, i, WidthAt(l), w, 1);
    HereAt(c, WidthAt(l), w[..1]);
    ScanSpaces(c, 2, 0, 0, 0, ch, l.s1);
  }

  lemma ReachHeight(l: Layout, w: seq<Byte>, h: seq<Byte>, pnm: seq<Byte>, c: seq<Byte>, i: nat, ch: nat)
    requires ValidLayout(l) && Sized(l, w, h) && WidthEnd(l) < i <= HeightEnd(l)
    requires Here(pnm, WidthEnd(l), l.s2) && Here(pnm, HeightAt(l), h)
    requires Shared(c, pnm, i) && i < |c| && c[i] == HASH
    ensures var p := Before(l, w, h, i);
            Scan(c, WidthEnd(l), 1, Value(w), 0, ch) ==
            if p.h > MAX_INT then Undefined else Scan(c, i, 2, Value(w), p.h, ch)
  {
    hide Scan, Here, Accumulate, Spaces, Digits, Shared;
    if i <= HeightAt(l) {
      var n := i - WidthEnd(l);
      SamePrefix(pnm, c, i, WidthEnd(l), l.s2, n);
      PartOfSpaces(l.s2, n);
      ScanSpaces(c, WidthEnd(l), 1, Value(w), 0, ch, l.s2[..n]);
    } else {
      var n := i - HeightAt(l);
      SamePiece(pnm, c, i, WidthEnd(l), l.s2);
      SamePrefix(pnm, c, i, HeightAt(l), h, n);
      PartOfDigits(h, n);
      HereAt(c, HeightAt(l), h[..n]);
      DigitIsToken(h);
      ScanSpaces(c, WidthEnd(l), 1, Value(w), 0, ch, l.s2);
      ScanDigits(c, HeightAt(l), 2, Value(w), 0, ch, h[..n]);
    }
  }

  lemma DigitIsToken(s: seq<Byte>)
    requires Digits(s) && s != []
    ensures !IsSpace(s[0])
  {
  }

  // The comment is left at its first whitespace, and that whitespace counts.
  lemma {:induction false} StateTwoKeepsWidth(pnm: seq<Byte>, at: nat, w: nat, h: nat, channels: nat)
    requires at <= |pnm|
    ensures Scan(pnm, at, 2, w, h, channels).Dims? ==> Scan(pnm, at, 2, w, h, channels).w == w
    decreases |pnm| - at
  {
    if at < |pnm| {
      if pnm[at] == HASH {
        StateTwoKeepsWidth(pnm, SkipComment(pnm, at + 1), w, h, channels);
      } else if !IsSpace(pnm[at]) && IsDigit(pnm[at]) {
        StateTwoKeepsWidth(pnm, at + 1, w, h * 10 + (pnm[at] - ZERO), channels);
      }
    }
  }

  lemma LeaveComment(pnm: seq<Byte>, i: nat, n: nat, state: nat, w: nat, h: nat, channels: nat)
    requires i < n < |pnm| && pnm[i] == HASH && IsSpace(pnm[n]) && state < 3
    ensures var j := SkipComment(pnm, i + 1);
            && i < j <= n && IsSpace(pnm[j])
            && Scan(pnm, i, state, w, h, channels) ==
               if state == 2 then Dims(h, w, channels)
               else if SkipSpaces(pnm, j + 1) == |pnm| then Rejected
               else Scan(pnm, SkipSpaces(pnm, j + 1), state + 1, w, h, channels)
  {
    var j := SkipComment(pnm, i + 1);
    assert Scan(pnm, i, state, w, h, channels) == Scan(pnm, j, state, w, h, channels);
  }

  // The comment stands at position i.
  predicate CommentHere(c: seq<Byte>, i: nat, text: seq<Byte>) {
    var n := i + 1 + |text|;
    n < |c| && c[i] == HASH && Here(c, i + 1, text) && c[n] == NEWLINE
  }

  // After position n, c goes on like pnm from position i on.
  predicate Resumes(pnm: seq<Byte>, c: seq<Byte>, i: nat, n: nat) {
    i <= |pnm| && n < |c| && c[n + 1..] == pnm[i..]
  }

  lemma CommentAt(l: Layout, w: seq<Byte>, h: seq<Byte>, i: nat, text: seq<Byte>)
    requires i <= |Plain(l, w, h)|
    ensures var c, n := Commented(l, w, h, i, text), i + 1 + |text|;
            && CommentHere(c, i, text) && Resumes(Plain(l, w, h), c, i, n)
            && c[..n + 1] == Plain(l, w, h)[..i] + [HASH] + text + [NEWLINE]
  {
    hide Plain;
    var c, n := Commented(l, w, h, i, text), i + 1 + |text|;
    assert c[i + 1..n] == text;
  }

  /** What the scanner makes of a comment that does not follow the magic number or the width directly.
      In front of the width the width is taken as 0, and inside a number the number ends. */
  lemma CommentEndsToken(l: Layout, w: seq<Byte>, h: seq<Byte>, i: nat, text: seq<Byte>)
    requires ValidLayout(l) && Sized(l, w, h) && 2 < i <= HeightEnd(l)
    ensures i <= |Plain(l, w, h)|
    ensures var p, r := Before(l, w, h, i), Peek(Commented(l, w, h, i, text));
            && (p.w > MAX_INT || p.h > MAX_INT ==> r == Undefined)
            && (p.w <= MAX_INT && p.h <= MAX_INT ==>
                  (p.state == 1 ==> r.Dims? ==> r.w == p.w) && (p.state == 2 ==> r == Dims(p.h, p.w, Channels(l.magic))))
  {
    ReachComment(l, w, h, i, text);
    CommentAt(l, w, h, i, text);
    var p, c, ch := Before(l, w, h, i), Commented(l, w, h, i, text), Channels(l.magic);
    hide Scan, Plain, Commented, Before, Peek, Accumulate, Channels, Digits, Spaces, Here, Resumes;
    LeaveComment(c, i, i + 1 + |text|, p.state, p.w, p.h, ch);
    if p.state == 1 {
      var next := SkipSpaces(c, SkipComment(c, i + 1) + 1);
      StateTwoKeepsWidth(c, next, p.w, p.h, ch);
    }
  }

  lemma {:induction false} SkipAgree(p: seq<Byte>, q: seq<Byte>, n: nat, at: nat)
    requires Shared(p, q, n) && at < n && IsSpace(p[n - 1])
    ensures SkipComment(p, at) == SkipComment(q, at) < n
    decreases n - at
  {
    hide Shared;
    SharedAt(p, q, n, at);
    SharedAt(p, q, n, n - 1);
    if !IsSpace(p[at]) {
      SkipAgree(p, q, n, at + 1);
    }
  }

  // A number that ends within a common part of two inputs is the same in both: the width,
  lemma {:induction false} WidthFixed(p: seq<Byte>, q: seq<Byte>, n: nat, at: nat, w: nat, h: nat, channels: nat)
    requires Shared(p, q, n) && at < n && IsSpace(p[n - 1])
    ensures var a, b := Scan(p, at, 1, w, h, channels), Scan(q, at, 1, w, h, channels);
            a.Dims? && b.Dims? ==> a.w == b.w
    decreases n - at
  {
    hide Shared;
    SharedAt(p, q, n, at);
    SharedAt(p, q, n, n - 1);
    if p[at] == HASH {
      SkipAgree(p, q, n, at + 1);
      WidthFixed(p, q, n, SkipComment(p, at + 1), w, h, channels);
    } else if IsSpace(p[at]) {
      StateTwoKeepsWidth(p, SkipSpaces(p, at + 1), w, h, channels);
      StateTwoKeepsWidth(q, SkipSpaces(q, at + 1), w, h, channels);
    } else if IsDigit(p[at]) {
      WidthFixed(p, q, n, at + 1, w * 10 + (p[at] - ZERO), h, channels);
    }
  }

  // and with the height everything.
  lemma {:induction false} HeightFixed(p: seq<Byte>, q: seq<Byte>, n: nat, at: nat, w: nat, h: nat, channels: nat)
    requires Shared(p, q, n) && at < n && IsSpace(p[n - 1])
    ensures Scan(p, at, 2, w, h, channels) == Scan(q, at, 2, w, h, channels)
    decreases n - at
  {
    hide Shared;
    SharedAt(p, q, n, at);
    SharedAt(p, q, n, n - 1);
    if p[at] == HASH {
      SkipAgree(p, q, n, at + 1);
      HeightFixed(p, q, n, SkipComment(p, at + 1), w, h, channels);
    } else if !IsSpace(p[at]) && IsDigit(p[at]) {
      HeightFixed(p, q, n, at + 1, w, h * 10 + (p[at] - ZERO), channels);
    }
  }

  // From its first whitespace on, the text is blank.
  predicate BlankTail(text: seq<Byte>) {
    forall k, m :: 0 <= k < m < |text| && IsSpace(text[k]) ==> IsSpace(text[m])
  }

  // Where the run of whitespace that ends the comment stops.
  function AfterComment(c: seq<Byte>, i: nat): nat
    requires i < |c|
  {
    var j := SkipComment(c, i + 1);
    if j == |c| then j else SkipSpaces(c, j + 1)
  }

  lemma HereIndex(pnm: seq<Byte>, at: nat, part: seq<Byte>, k: nat)
    requires Here(pnm, at, part) && k < |part|
    ensures at + k < |pnm| && pnm[at + k] == part[k]
  {
    assert pnm[at..at + |part|][k] == pnm[at + k];
  }

  lemma BlankFrom(text: seq<Byte>, k: nat, m: nat)
    requires BlankTail(text) && k <= m < |text| && IsSpace(text[k])
    ensures IsSpace(text[m])
  {
  }

  lemma SpaceIn(s: seq<Byte>, k: nat)
    requires Spaces(s) && k < |s|
    ensures IsSpace(s[k])
  {
  }

  lemma NewlineIsSpace()
    ensures IsSpace(NEWLINE)
  {
  }

  // From the first whitespace of the comment to the end of the run behind it there is only whitespace.
  lemma BlankAt(c: seq<Byte>, i: nat, text: seq<Byte>, run: seq<Byte>, j: nat, k: nat)
    requires CommentHere(c, i, text) && Here(c, i + 2 + |text|, run) && BlankTail(text) && (run == [] || Spaces(run))
    requires i < j <= i + 1 + |text| && IsSpace(c[j]) && j <= k < i + 2 + |text| + |run|
    ensures k < |c| && IsSpace(c[k])
  {
    hide Here, BlankTail, Spaces, IsSpace;
    var n := i + 1 + |text|;
    NewlineIsSpace();
    if k < n {
      HereIndex(c, i + 1, text, j - i - 1);
      HereIndex(c, i + 1, text, k - i - 1);
      BlankFrom(text, j - i - 1, k - i - 1);
    } else if k > n {
      HereIndex(c, n + 1, run, k - n - 1);
      SpaceIn(run, k - n - 1);
    }
  }

  lemma BlankRun(c: seq<Byte>, i: nat, text: seq<Byte>, run: seq<Byte>)
    requires CommentHere(c, i, text) && Here(c, i + 2 + |text|, run)
    requires i + 2 + |text| + |run| < |c| && !IsSpace(c[i + 2 + |text| + |run|])
    requires BlankTail(text) && (run == [] || Spaces(run))
    ensures AfterComment(c, i) == i + 2 + |text| + |run|
  {
    hide Here, SkipComment, SkipSpaces, BlankTail, Spaces, IsSpace;
    var e, j := i + 2 + |text| + |run|, SkipComment(c, i + 1);
    NewlineIsSpace();
    forall k | j <= k < e ensures k < |c| && IsSpace(c[k]) {
      BlankAt(c, i, text, run, j, k);
    }
    SkipRun(c, j + 1, e - (j + 1));
  }

  lemma InkedRun(c: seq<Byte>, i: nat, text: seq<Byte>)
    requires CommentHere(c, i, text) && !BlankTail(text)
    ensures AfterComment(c, i) < i + 1 + |text|
  {
    var n, j := i + 1 + |text|, SkipComment(c, i + 1);
    var k, m :| 0 <= k < m < |text| && IsSpace(text[k]) && !IsSpace(text[m]);
    HereIndex(c, i + 1, text, k);
    HereIndex(c, i + 1, text, m);
  }

  lemma ShiftHere(pnm: seq<Byte>, c: seq<Byte>, i: nat, n: nat, at: nat, part: seq<Byte>)
    requires Resumes(pnm, c, i, n) && i <= at && Here(pnm, at, part)
    ensures Here(c, n + 1 + at - i, part)
  {
    var k := at - i;
    assert pnm[i..][k..k + |part|] == pnm[at..at + |part|];
    assert c[n + 1..][k..k + |part|] == c[n + 1 + k..n + 1 + k + |part|];
  }

  // Reading on from the height, and from the width.
  lemma ScanFromHeight(pnm: seq<Byte>, at: nat, h: seq<Byte>, w: nat, ch: nat)
    requires Digits(h) && Here(pnm, at, h) && at + |h| < |pnm| && IsSpace(pnm[at + |h|]) && h != []
    ensures Scan(pnm, at, 2, w, 0, ch) == if Value(h) > MAX_INT then Undefined else Dims(Value(h), w, ch)
  {
    hide Here, Accumulate, Digits;
    ScanDigits(pnm, at, 2, w, 0, ch, h);
    ScanEnds(pnm, at + |h|, w, Value(h), ch);
  }

  lemma ScanFromWidth(pnm: seq<Byte>, at: nat, w: seq<Byte>, s2: seq<Byte>, h: seq<Byte>, ch: nat)
    requires Digits(w) && Digits(h) && Spaces(s2) && w != [] && h != []
    requires Here(pnm, at, w) && Here(pnm, at + |w|, s2) && Here(pnm, at + |w| + |s2|, h)
    requires var d := at + |w| + |s2| + |h|; d < |pnm| && IsSpace(pnm[d])
    ensures Scan(pnm, at, 1, 0, 0, ch) ==
            if Value(w) > MAX_INT || Value(h) > MAX_INT then Undefined else Dims(Value(h), Value(w), ch)
  {
    hide Scan, Here, Accumulate, Digits, Spaces;
    ScanDigits(pnm, at, 1, 0, 0, ch, w);
    if Value(w) <= MAX_INT {
      HereAt(pnm, at + |w| + |s2|, h);
      DigitIsToken(h);
      ScanSpaces(pnm, at + |w|, 1, Value(w), 0, ch, s2);
      ScanFromHeight(pnm, at + |w| + |s2|, h, Value(w), ch);
    }
  }

  // A header read as its dimensions.
  function Stated(l: Layout, w: seq<Byte>, h: seq<Byte>): Outcome
    requires Sized(l, w, h)
  {
    if Value(w) > MAX_INT || Value(h) > MAX_INT then Undefined else Dims(Value(h), Value(w), Channels(l.magic))
  }

  lemma IntendedStated(l: Layout, w: seq<Byte>, h: seq<Byte>, i: nat, text: seq<Byte>)
    requires ValidLayout(l) && Sized(l, w, h) && 2 <= i <= HeightEnd(l) && NEWLINE !in text
    ensures i <= |Plain(l, w, h)| && Intended(Commented(l, w, h, i, text)) == Stated(l, w, h)
  {
    hide Intended, Peek, Commented, Spaces, Accumulate, Channels;
    IntendedHeader(l, w, h, i, text);
    HeaderScan(l.magic, l.s1, w, l.s2, h, l.s3, l.rest);
  }

  // The pieces of the header behind the comment.
  lemma PiecesBehind(l: Layout, w: seq<Byte>, h: seq<Byte>, i: nat, text: seq<Byte>)
    requires ValidLayout(l) && Sized(l, w, h) && 2 <= i <= HeightEnd(l)
    ensures i <= |Plain(l, w, h)|
    ensures var c, shift := Commented(l, w, h, i, text), |text| + 2;
            && HeightEnd(l) + shift < |c| && c[HeightEnd(l) + shift] == l.s3
            && (i == 2 ==> Here(c, 2 + shift, l.s1)) && (i <= WidthAt(l) ==> Here(c, WidthAt(l) + shift, w))
            && (i <= WidthEnd(l) ==> Here(c, WidthEnd(l) + shift, l.s2)) && (i <= HeightAt(l) ==> Here(c, HeightAt(l) + shift, h))
  {
    hide Here, Plain, Commented, Spaces, Digits, Resumes, CommentHere;
    PlainParts(l, w, h);
    CommentAt(l, w, h, i, text);
    var pnm, c, n := Plain(l, w, h), Commented(l, w, h, i, text), i + 1 + |text|;
    ShiftHere(pnm, c, i, n, HeightEnd(l), [l.s3]);
    HereAt(c, n + 1 + HeightEnd(l) - i, [l.s3]);
    if i == 2 {
      ShiftHere(pnm, c, i, n, 2, l.s1);
    }
    if i <= WidthAt(l) {
      ShiftHere(pnm, c, i, n, WidthAt(l), w);
    }
    if i <= WidthEnd(l) {
      ShiftHere(pnm, c, i, n, WidthEnd(l), l.s2);
    }
    if i <= HeightAt(l) {
      ShiftHere(pnm, c, i, n, HeightAt(l), h);
    }
  }

  lemma SafeAfterMagic(l: Layout, w: seq<Byte>, h: seq<Byte>, text: seq<Byte>)
    requires ValidLayout(l) && Sized(l, w, h) && BlankTail(text)
    ensures 2 <= |Plain(l, w, h)| && Peek(Commented(l, w, h, 2, text)) == Stated(l, w, h)
  {
    hide Scan, Plain, Commented, Peek, Accumulate, Channels, Here, BlankTail, Spaces, Digits, Resumes, CommentHere, AfterComment;
    ReachComment(l, w, h, 2, text);
    CommentAt(l, w, h, 2, text);
    PiecesBehind(l, w, h, 2, text);
    var c, ch := Commented(l, w, h, 2, text), Channels(l.magic);
    HereAt(c, WidthAt(l) + |text| + 2, w);
    DigitIsToken(w);
    BlankRun(c, 2, text, l.s1);
    LeaveToToken(c, 2, text, 0, 0, ch);
    ScanFromWidth(c, WidthAt(l) + |text| + 2, w, l.s2, h, ch);
  }

  lemma SafeAfterWidth(l: Layout, w: seq<Byte>, h: seq<Byte>, text: seq<Byte>)
    requires ValidLayout(l) && Sized(l, w, h) && BlankTail(text)
    ensures WidthEnd(l) <= |Plain(l, w, h)| && Peek(Commented(l, w, h, WidthEnd(l), text)) == Stated(l, w, h)
  {
    hide Scan, Plain, Commented, Peek, Accumulate, Channels, Here, BlankTail, Spaces, Digits, Resumes, CommentHere, AfterComment;
    var i := WidthEnd(l);
    ReachComment(l, w, h, i, text);
    CommentAt(l, w, h, i, text);
    PiecesBehind(l, w, h, i, text);
    assert w[..l.width] == w;
    var c, ch := Commented(l, w, h, i, text), Channels(l.magic);
    HereAt(c, HeightAt(l) + |text| + 2, h);
    DigitIsToken(h);
    if Value(w) <= MAX_INT {
      BlankRun(c, i, text, l.s2);
      LeaveToToken(c, i, text, 1, Value(w), ch);
      ScanFromHeight(c, HeightAt(l) + |text| + 2, h, Value(w), ch);
    }
  }

  // n digits that stand for d, all in the last one.
  function Small(n: nat, d: nat): (s: seq<Byte>)
    requires n > 0 && d < 10
    ensures |s| == n && Digits(s)
  {
    seq(n - 1, i => ZERO) + [ZERO + d]
  }

  lemma {:induction false} ZerosValue(s: seq<Byte>)
    requires forall i :: 0 <= i < |s| ==> s[i] == ZERO
    ensures Digits(s) && Value(s) == 0
  {
    if s != [] {
      ZerosValue(s[1..]);
      assert Accumulate(0, s) == Accumulate(0, s[1..]);
    }
  }

  lemma SmallValue(n: nat, d: nat, k: nat)
    requires n > 0 && d < 10 && k < n
    ensures Value(Small(n, d)) == d && Digits(Small(n, d)[..k]) && Value(Small(n, d)[..k]) == 0
  {
    var zeros: seq<Byte> := seq(n - 1, i => ZERO);
    ZerosValue(zeros);
    AccumulateSnoc(0, zeros, ZERO + d);
    ZerosValue(Small(n, d)[..k]);
  }

  // After the magic number, a text with ink behind a blank fixes the width.
  lemma InkAfterMagic(l: Layout, w: seq<Byte>, w': seq<Byte>, h: seq<Byte>, text: seq<Byte>)
    requires ValidLayout(l) && Sized(l, w, h) && Sized(l, w', h) && !BlankTail(text)
    ensures 2 <= |Plain(l, w, h)| && 2 <= |Plain(l, w', h)|
    ensures var a, b := Peek(Commented(l, w, h, 2, text)), Peek(Commented(l, w', h, 2, text));
            a.Dims? && b.Dims? ==> a.w == b.w
  {
    ReachComment(l, w, h, 2, text);
    ReachComment(l, w', h, 2, text);
    CommentAt(l, w, h, 2, text);
    CommentAt(l, w', h, 2, text);
    assert Plain(l, w, h)[..2] == [80, l.magic] == Plain(l, w', h)[..2];
    SamePast(l, Commented(l, w, h, 2, text), Commented(l, w', h, 2, text), 2, text, 0, 0);
  }

  lemma LeaveToToken(c: seq<Byte>, i: nat, text: seq<Byte>, state: nat, w: nat, ch: nat)
    requires CommentHere(c, i, text) && AfterComment(c, i) < |c| && state < 2
    ensures Scan(c, i, state, w, 0, ch) == Scan(c, AfterComment(c, i), state + 1, w, 0, ch)
  {
    hide Scan, Here;
    LeaveComment(c, i, i + 1 + |text|, state, w, 0, ch);
  }

  lemma SamePast(l: Layout, c: seq<Byte>, d: seq<Byte>, i: nat, text: seq<Byte>, state: nat, w: nat)
    requires CommentHere(c, i, text) && CommentHere(d, i, text) && Shared(c, d, i + 2 + |text|)
    requires !BlankTail(text) && state < 2
    ensures var a, b := Scan(c, i, state, w, 0, Channels(l.magic)), Scan(d, i, state, w, 0, Channels(l.magic));
            (state == 1 ==> a == b) && (state == 0 ==> a.Dims? && b.Dims? ==> a.w == b.w)
  {
    hide Scan, BlankTail, Channels, Shared, Here, AfterComment;
    var n, ch := i + 1 + |text|, Channels(l.magic);
    InkedRun(c, i, text);
    InkedRun(d, i, text);
    LeaveToToken(c, i, text, state, w, ch);
    LeaveToToken(d, i, text, state, w, ch);
    SameAfter(c, d, i, n);
    if state == 0 {
      WidthFixed(c, d, n + 1, AfterComment(c, i), w, 0, ch);
    } else {
      HeightFixed(c, d, n + 1, AfterComment(c, i), w, 0, ch);
    }
  }

  lemma SameAfter(c: seq<Byte>, d: seq<Byte>, i: nat, n: nat)
    requires i < n < |c| && n < |d| && Shared(c, d, n + 1) && c[n] == NEWLINE && AfterComment(c, i) < n && AfterComment(d, i) < n
    ensures AfterComment(c, i) == AfterComment(d, i)
  {
    hide Shared;
    SkipAgree(c, d, n + 1, i + 1);
    SharedAt(c, d, n + 1, AfterComment(c, i));
    SharedAt(c, d, n + 1, AfterComment(d, i));
  }

  // After the width, it fixes the height.
  lemma InkAfterWidth(l: Layout, w: seq<Byte>, h: seq<Byte>, h': seq<Byte>, text: seq<Byte>)
    requires ValidLayout(l) && Sized(l, w, h) && Sized(l, w, h') && !BlankTail(text)
    ensures WidthEnd(l) <= |Plain(l, w, h)| && WidthEnd(l) <= |Plain(l, w, h')|
    ensures Peek(Commented(l, w, h, WidthEnd(l), text)) == Peek(Commented(l, w, h', WidthEnd(l), text))
  {
    var i := WidthEnd(l);
    ReachComment(l, w, h, i, text);
    ReachComment(l, w, h', i, text);
    CommentAt(l, w, h, i, text);
    CommentAt(l, w, h', i, text);
    assert w[..l.width] == w;
    assert Plain(l, w, h)[..i] == [80, l.magic] + l.s1 + w == Plain(l, w, h')[..i];
    hide Scan, Plain, Commented, Peek, Accumulate, Channels, BlankTail, Spaces, Digits;
    if Value(w) <= MAX_INT {
      SamePast(l, Commented(l, w, h, i, text), Commented(l, w, h', i, text), i, text, 1, Value(w));
    }
  }

  ghost predicate ReadRight(l: Layout, w: seq<Byte>, h: seq<Byte>, i: nat, text: seq<Byte>) {
    i <= |Plain(l, w, h)| && Peek(Commented(l, w, h, i, text)) == Intended(Commented(l, w, h, i, text))
  }

  // Directly after the height; or directly after the magic number or the width, with nothing but
  // blanks behind the first blank of the text.
  predicate Safe(l: Layout, i: nat, text: seq<Byte>) {
    i == HeightEnd(l) || ((i == 2 || i == WidthEnd(l)) && BlankTail(text))
  }

  lemma SafeIsRight(l: Layout, w: seq<Byte>, h: seq<Byte>, i: nat, text: seq<Byte>)
    requires ValidLayout(l) && Sized(l, w, h) && 2 <= i <= HeightEnd(l) && NEWLINE !in text && Safe(l, i, text)
    ensures ReadRight(l, w, h, i, text)
  {
    assert h[..l.height] == h;
    hide Plain, Commented, Peek, Accumulate, Channels, BlankTail, Spaces, Digits, Intended;
    IntendedStated(l, w, h, i, text);
    if i == HeightEnd(l) {
      CommentEndsToken(l, w, h, i, text);
    } else if i == 2 {
      SafeAfterMagic(l, w, h, text);
    } else {
      SafeAfterWidth(l, w, h, text);
    }
  }

  // For a comment that is not safe, a size that is read wrong.
  lemma UnsafeIsWrong(l: Layout, i: nat, text: seq<Byte>) returns (w: seq<Byte>, h: seq<Byte>)
    requires ValidLayout(l) && 2 <= i <= HeightEnd(l) && NEWLINE !in text && !Safe(l, i, text)
    ensures Sized(l, w, h) && !ReadRight(l, w, h, i, text)
  {
    hide Plain, Commented, Peek, Accumulate, Channels, BlankTail, Spaces, Digits, Intended;
    w, h := Small(l.width, 1), Small(l.height, 1);
    SmallValue(l.width, 1, if WidthAt(l) < i < WidthEnd(l) then i - WidthAt(l) else 0);
    SmallValue(l.height, 1, if HeightAt(l) < i < HeightEnd(l) then i - HeightAt(l) else 0);
    IntendedStated(l, w, h, i, text);
    if i == 2 {
      var w' := Small(l.width, 2);
      SmallValue(l.width, 2, 0);
      IntendedStated(l, w', h, i, text);
      InkAfterMagic(l, w, w', h, text);
      if ReadRight(l, w, h, i, text) {
        w := w';
      }
    } else if i == WidthEnd(l) {
      var h' := Small(l.height, 2);
      SmallValue(l.height, 2, 0);
      IntendedStated(l, w, h', i, text);
      InkAfterWidth(l, w, h, h', text);
      if ReadRight(l, w, h, i, text) {
        h := h';
      }
    } else {
      CommentEndsToken(l, w, h, i, text);
    }
  }

  /** One comment anywhere in a header: for every width and height of the given lengths the dimensions
      are read as intended, if and only if the comment stands directly after the height, or directly
      after the magic number or the width with nothing but blanks behind the first blank of its text. */
  lemma CommentRead(l: Layout, i: nat, text: seq<Byte>)
    requires ValidLayout(l) && 2 <= i <= HeightEnd(l) && NEWLINE !in text
    ensures (forall w, h :: Sized(l, w, h) ==> ReadRight(l, w, h, i, text)) <==> Safe(l, i, text)
  {
    hide *;
    if Safe(l, i, text) {
      forall w, h | Sized(l, w, h) ensures ReadRight(l, w, h, i, text) {
        SafeIsRight(l, w, h, i, text);
      }
    } else {
      var w, h := UnsafeIsWrong(l, i, text);
    }
  }

  /** The ordinary comment line: one word after the whitespace that follows the magic number. The width
      is taken as 0 and the width of the image as its height, for every header. */
  lemma CommentLineMisread(l: Layout, w: seq<Byte>, h: seq<Byte>, i: nat, text: seq<Byte>)
    requires ValidLayout(l) && Sized(l, w, h) && 2 < i <= WidthAt(l)
    requires forall k :: 0 <= k < |text| ==> !IsSpace(text[k])
    ensures i <= |Plain(l, w, h)|
    ensures Peek(Commented(l, w, h, i, text)) == if Value(w) > MAX_INT then Undefined else Dims(Value(w), 0, Channels(l.magic))
  {
    hide Scan, Plain, Commented, Peek, Accumulate, Channels, Here, BlankTail, Spaces, Digits, Resumes, CommentHere, AfterComment;
    WordIsBlank(text);
    RestOfSpaces(l.s1, i - 2);
    RestOfSpaces(l.s2, 0);
    ReachComment(l, w, h, i, text);
    CommentAt(l, w, h, i, text);
    PiecesBehind(l, w, h, i, text);
    var c, ch := Commented(l, w, h, i, text), Channels(l.magic);
    var run := l.s1[i - 2..];
    RunBehind(l, w, h, i, text);
    HereAt(c, WidthAt(l) + |text| + 2, w);
    HereAt(c, WidthEnd(l) + |text| + 2, l.s2);
    DigitIsToken(w);
    BlankRun(c, i, text, run);
    LeaveToToken(c, i, text, 1, 0, ch);
    ScanFromHeight(c, WidthAt(l) + |text| + 2, w, 0, ch);
  }

  lemma WordIsBlank(text: seq<Byte>)
    requires forall k :: 0 <= k < |text| ==> !IsSpace(text[k])
    ensures BlankTail(text)
  {
  }

  lemma RestOfSpaces(s: seq<Byte>, n: nat)
    requires Spaces(s) && n <= |s|
    ensures (s[n..] == [] || Spaces(s[n..])) && s != [] && IsSpace(s[0])
  {
  }

  lemma RunBehind(l: Layout, w: seq<Byte>, h: seq<Byte>, i: nat, text: seq<Byte>)
    requires ValidLayout(l) && Sized(l, w, h) && 2 < i <= WidthAt(l)
    ensures i <= |Plain(l, w, h)| && Here(Commented(l, w, h, i, text), i + 2 + |text|, l.s1[i - 2..])
  {
    PlainParts(l, w, h);
    CommentAt(l, w, h, i, text);
    var pnm, c := Plain(l, w, h), Commented(l, w, h, i, text);
    assert Here(pnm, i, l.s1[i - 2..]) by { assert pnm[i..WidthAt(l)] == pnm[2..WidthAt(l)][i - 2..]; }
    hide Plain, Commented, Here, Resumes;
    ShiftHere(pnm, c, i, i + 1 + |text|, i, l.s1[i - 2..]);
  }

  /** A comment ends at its first whitespace rather than at the end of the line: a comment with a
      blank and then a letter makes the scanner refuse the header, whatever it holds otherwise. */
  lemma CommentWithBlankRefused(magic: Byte, letter: Byte, rest: seq<Byte>)
    requires !IsSpace(letter) && !IsDigit(letter) && letter != HASH
    ensures Peek([80, magic, NEWLINE, HASH, SPACE, letter] + rest) == Rejected
  {
    var pnm := [80, magic, NEWLINE, HASH, SPACE, letter] + rest;
    assert pnm[2] == NEWLINE && pnm[3] == HASH && pnm[4] == SPACE && pnm[5] == letter;
    var ch := Channels(magic);
    assert SkipSpaces(pnm, 3) == 3 && SkipComment(pnm, 4) == 4 && SkipSpaces(pnm, 5) == 5;
    assert Scan(pnm, 5, 2, 0, 0, ch) == Rejected;
    assert Scan(pnm, 4, 1, 0, 0, ch) == Scan(pnm, 5, 2, 0, 0, ch);
    assert Scan(pnm, 3, 1, 0, 0, ch) == Scan(pnm, 4, 1, 0, 0, ch);
    assert Scan(pnm, 2, 0, 0, 0, ch) == Scan(pnm, 3, 1, 0, 0, ch);
  }
}
