/** Reading the dimensions out of a PNM header, and the header that the image writer produces. */
module PnmHeader {

  type Byte = b: nat | b < 256

  const HASH: Byte := 35
  const SPACE: Byte := 32
  const NEWLINE: Byte := 10
  const ZERO: Byte := 48
  const MAX_INT := 0x7fff_ffff

  predicate IsSpace(b: Byte) { b == 32 || 9 <= b <= 13 }

  predicate IsDigit(b: Byte) { 48 <= b <= 57 }

  // Undefined: a digit before any whitespace is stored in front of the array, or a dimension
  // overflows int.
  datatype Outcome = Dims(h: nat, w: nat, channels: nat) | Rejected | Undefined

  // ---- the scanner as a function --------------------------------------------------------------------

  function Channels(magic: Byte): nat {
    if magic == 51 || magic == 54 then 3 else 1
  }

  // The first position from `at` on that is a whitespace, or the end.
  function SkipComment(pnm: seq<Byte>, at: nat): (r: nat)
    requires at <= |pnm|
    ensures at <= r <= |pnm| && (r < |pnm| ==> IsSpace(pnm[r])) && forall k :: at <= k < r ==> !IsSpace(pnm[k])
    decreases |pnm| - at
  {
    if at == |pnm| || IsSpace(pnm[at]) then at else SkipComment(pnm, at + 1)
  }

  function SkipSpaces(pnm: seq<Byte>, at: nat): (r: nat)
    requires at <= |pnm|
    ensures at <= r <= |pnm| && (r < |pnm| ==> !IsSpace(pnm[r])) && forall k :: at <= k < r ==> IsSpace(pnm[k])
    decreases |pnm| - at
  {
    if at == |pnm| || !IsSpace(pnm[at]) then at else SkipSpaces(pnm, at + 1)
  }

  // The loop: `state` whitespace runs have been passed.
  function Scan(pnm: seq<Byte>, at: nat, state: nat, w: nat, h: nat, channels: nat): Outcome
    requires at <= |pnm| && state < 3
    decreases |pnm| - at
  {
    if at == |pnm| then Rejected
    else if pnm[at] == HASH then
      var next := SkipComment(pnm, at + 1);
      if next == |pnm| then Rejected else Scan(pnm, next, state, w, h, channels)
    else if IsSpace(pnm[at]) then
      if state == 2 then Dims(h, w, channels)
      else
        var next := SkipSpaces(pnm, at + 1);
        if next == |pnm| then Rejected else Scan(pnm, next, state + 1, w, h, channels)
    else if !IsDigit(pnm[at]) then Rejected
    else if state == 0 then Undefined
    else
      var value := (if state == 1 then w else h) * 10 + (pnm[at] - ZERO);
      if value > MAX_INT then Undefined
      else if state == 1 then Scan(pnm, at + 1, state, value, h, channels)
      else Scan(pnm, at + 1, state, w, value, channels)
  }

  function Peek(pnm: seq<Byte>): Outcome {
    if |pnm| < 2 then Rejected else Scan(pnm, 2, 0, 0, 0, Channels(pnm[1]))
  }

  method FindSpace(pnm: seq<Byte>, start: nat) returns (at: nat)
    requires start <= |pnm|
    ensures at == SkipComment(pnm, start)
  {
    at := start;
    while at < |pnm| && !IsSpace(pnm[at])
      invariant at <= |pnm| && SkipComment(pnm, at) == SkipComment(pnm, start)
    {
      at := at + 1;
    }
  }

  method FindToken(pnm: seq<Byte>, start: nat) returns (at: nat)
    requires start <= |pnm|
    ensures at == SkipSpaces(pnm, start)
  {
    at := start;
    while at < |pnm| && IsSpace(pnm[at])
      invariant at <= |pnm| && SkipSpaces(pnm, at) == SkipSpaces(pnm, start)
    {
      at := at + 1;
    }
  }

  /** The scanner with its loops. It never reads past the end. */
  method PeekDims(pnm: seq<Byte>) returns (r: Outcome)
    ensures r == Peek(pnm)
    ensures r.Dims? ==> |pnm| > 2 && r.channels == if pnm[1] in {51, 54} then 3 else 1
  {
    PeekChannels(pnm);
    hide SkipComment, SkipSpaces;
    var end, at := |pnm|, 1;
    if !(at < end) {
      return Rejected;
    }
    var channels := 1;
    if pnm[at] == 51 || pnm[at] == 54 {
      channels := 3;
    }
    at := at + 1;
    var state := 0;
    var dim := [0, 0];
    while state < 3
      invariant 2 <= at <= end && 0 <= state <= 3 && |dim| == 2 && dim[0] >= 0 && dim[1] >= 0
      invariant state < 3 ==> Peek(pnm) == Scan(pnm, at, state, dim[0], dim[1], channels)
      invariant state == 3 ==> Peek(pnm) == Dims(dim[1], dim[0], channels)
      decreases 3 - state, end - at
    {
      if !(at < end) {
        return Rejected;
      }
      if pnm[at] == HASH {
        at := FindSpace(pnm, at + 1);
        if !(at < end) {
          return Rejected;
        }
      } else if IsSpace(pnm[at]) {
        state := state + 1;
        if state < 3 {
          at := FindToken(pnm, at + 1);
          if !(at < end) {
            return Rejected;
          }
        }
      } else {
        if !IsDigit(pnm[at]) {
          return Rejected;
        }
        if state == 0 {
          return Undefined;
        }
        var value := dim[state - 1] * 10 + (pnm[at] - ZERO);
        if value > MAX_INT {
          return Undefined;
        }
        dim := dim[state - 1 := value];
        at := at + 1;
      }
    }
    r := Dims(dim[1], dim[0], channels);
  }

  // ---- decimal numbers ------------------------------------------------------------------------------------

  predicate Digits(s: seq<Byte>) {
    forall i :: 0 <= i < |s| ==> IsDigit(s[i])
  }

  predicate Spaces(s: seq<Byte>) {
    s != [] && forall i :: 0 <= i < |s| ==> IsSpace(s[i])
  }

  function Accumulate(v: nat, s: seq<Byte>): (r: nat)
    requires Digits(s)
    ensures r >= v
    decreases |s|
  {
    if s == [] then v else Accumulate(v * 10 + (s[0] - ZERO), s[1..])
  }

  function Value(s: seq<Byte>): nat
    requires Digits(s)
  {
    Accumulate(0, s)
  }

  function Decimal(n: nat): (s: seq<Byte>)
    ensures s != [] && Digits(s)
  {
    if n < 10 then [ZERO + n] else Decimal(n / 10) + [ZERO + n % 10]
  }

  lemma {:induction false} AccumulateSnoc(v: nat, s: seq<Byte>, b: Byte)
    requires Digits(s) && IsDigit(b)
    ensures Accumulate(v, s + [b]) == Accumulate(v, s) * 10 + (b - ZERO)
    decreases |s|
  {
    if s == [] {
      assert s + [b] == [b] && [b][1..] == [];
    } else {
      assert (s + [b])[1..] == s[1..] + [b];
      AccumulateSnoc(v * 10 + (s[0] - ZERO), s[1..], b);
    }
  }

  /** Writing a number in decimal and reading it back. */
  lemma {:induction false} DecimalValue(n: nat)
    ensures Value(Decimal(n)) == n
  {
    if n < 10 {
      var s := Decimal(n);
      assert s[1..] == [] && Accumulate(n, []) == n;
    } else {
      DecimalValue(n / 10);
      AccumulateSnoc(0, Decimal(n / 10), ZERO + n % 10);
    }
  }

  // ---- headers ------------------------------------------------------------------------------------------------

  // The part of the input from `at` on starts with `part`.
  predicate Here(pnm: seq<Byte>, at: nat, part: seq<Byte>) {
    at + |part| <= |pnm| && pnm[at..at + |part|] == part
  }

  // Two inputs have the same first n bytes.
  predicate Shared(p: seq<Byte>, q: seq<Byte>, n: nat) {
    n <= |p| && n <= |q| && p[..n] == q[..n]
  }

  lemma SharedAt(p: seq<Byte>, q: seq<Byte>, n: nat, k: nat)
    requires Shared(p, q, n) && k < n
    ensures n <= |p| && n <= |q| && p[k] == q[k]
  {
    assert p[k] == p[..n][k] && q[k] == q[..n][k];
  }

  function Dimension(state: nat, w: nat, h: nat): nat {
    if state == 1 then w else h
  }

  lemma HereTail(pnm: seq<Byte>, at: nat, s: seq<Byte>)
    requires Here(pnm, at, s) && s != []
    ensures at < |pnm| && pnm[at] == s[0] && Here(pnm, at + 1, s[1..])
  {
    assert pnm[at] == pnm[at..at + |s|][0];
    assert pnm[at + 1..at + |s|] == pnm[at..at + |s|][1..];
  }

  lemma ScanDigit(pnm: seq<Byte>, at: nat, state: nat, w: nat, h: nat, channels: nat)
    requires at < |pnm| && IsDigit(pnm[at]) && 1 <= state < 3
    ensures var value := Dimension(state, w, h) * 10 + (pnm[at] - ZERO);
            Scan(pnm, at, state, w, h, channels) ==
            if value > MAX_INT then Undefined
            else Scan(pnm, at + 1, state, if state == 1 then value else w, if state == 1 then h else value, channels)
  {
  }

  // Reading a number.
  lemma {:induction false} ScanDigits(pnm: seq<Byte>, at: nat, state: nat, w: nat, h: nat, channels: nat, s: seq<Byte>)
    requires Digits(s) && Here(pnm, at, s) && 1 <= state < 3
    ensures var value := Accumulate(Dimension(state, w, h), s);
            Scan(pnm, at, state, w, h, channels) ==
            if s != [] && value > MAX_INT then Undefined
            else Scan(pnm, at + |s|, state, if state == 1 then value else w, if state == 1 then h else value, channels)
    decreases |s|
  {
    hide Scan, Here, Digits, Dimension, IsDigit;
    DimensionIs(state, w, h);
    AccumulateStep(Dimension(state, w, h), s);
    if s != [] {
      HereTail(pnm, at, s);
      var value := Dimension(state, w, h) * 10 + (s[0] - ZERO);
      ScanDigit(pnm, at, state, w, h, channels);
      var w', h' := if state == 1 then value else w, if state == 1 then h else value;
      DimensionIs(state, w', h');
      ScanDigits(pnm, at + 1, state, w', h', channels, s[1..]);
    }
  }

  lemma DimensionIs(state: nat, w: nat, h: nat)
    ensures Dimension(state, w, h) == if state == 1 then w else h
  {
  }

  lemma AccumulateStep(v: nat, s: seq<Byte>)
    requires Digits(s)
    ensures s == [] ==> Accumulate(v, s) == v
    ensures s != [] ==>
              && IsDigit(s[0]) && Digits(s[1..]) && s[0] >= ZERO
              && Accumulate(v, s) == Accumulate(v * 10 + (s[0] - ZERO), s[1..]) && Accumulate(v, s) >= v * 10 + (s[0] - ZERO)
  {
  }

  lemma {:induction false} SkipRun(pnm: seq<Byte>, at: nat, n: nat)
    requires at + n < |pnm| && !IsSpace(pnm[at + n]) && forall k :: at <= k < at + n ==> IsSpace(pnm[k])
    ensures SkipSpaces(pnm, at) == at + n
    decreases n
  {
    if n > 0 {
      SkipRun(pnm, at + 1, n - 1);
    }
  }

  // Reading a run of whitespace between tokens.
  lemma ScanSpaces(pnm: seq<Byte>, at: nat, state: nat, w: nat, h: nat, channels: nat, s: seq<Byte>)
    requires Spaces(s) && Here(pnm, at, s) && state < 2 && at + |s| < |pnm| && !IsSpace(pnm[at + |s|])
    ensures Scan(pnm, at, state, w, h, channels) == Scan(pnm, at + |s|, state + 1, w, h, channels)
  {
    forall k | at <= k < at + |s| ensures IsSpace(pnm[k]) {
      assert pnm[k] == pnm[at..at + |s|][k - at];
    }
    SkipRun(pnm, at + 1, |s| - 1);
  }

  lemma ScanEnds(pnm: seq<Byte>, at: nat, w: nat, h: nat, channels: nat)
    requires at < |pnm| && IsSpace(pnm[at])
    ensures Scan(pnm, at, 2, w, h, channels) == Dims(h, w, channels)
  {
  }

  function Header(magic: Byte, s1: seq<Byte>, w: seq<Byte>, s2: seq<Byte>, h: seq<Byte>, s3: Byte, rest: seq<Byte>): seq<Byte> {
    [80, magic] + s1 + w + s2 + h + [s3] + rest
  }

  lemma HeaderParts(pnm: seq<Byte>, magic: Byte, s1: seq<Byte>, w: seq<Byte>, s2: seq<Byte>, h: seq<Byte>, s3: Byte, rest: seq<Byte>)
    requires pnm == Header(magic, s1, w, s2, h, s3, rest) && w != [] && h != []
    ensures var a := 2 + |s1|; var b := a + |w|; var c := b + |s2|; var d := c + |h|;
            && d < |pnm| && pnm[1] == magic && pnm[d] == s3 && pnm[a] == w[0] && pnm[c] == h[0]
            && Here(pnm, 2, s1) && Here(pnm, a, w) && Here(pnm, b, s2) && Here(pnm, c, h)
  {
    var a := 2 + |s1|; var b := a + |w|; var c := b + |s2|; var d := c + |h|;
    assert pnm[2..a] == s1 && pnm[a..b] == w && pnm[b..c] == s2 && pnm[c..d] == h;
  }

  // Every header without comments, with at least one whitespace between the tokens and one after the
  // height: the dimensions are read back exactly when both fit an int, whatever follows.
  lemma HeaderScan(magic: Byte, s1: seq<Byte>, w: seq<Byte>, s2: seq<Byte>, h: seq<Byte>, s3: Byte, rest: seq<Byte>)
    requires Spaces(s1) && Spaces(s2) && IsSpace(s3) && Digits(w) && Digits(h) && w != [] && h != []
    ensures Peek(Header(magic, s1, w, s2, h, s3, rest)) ==
            if Value(w) <= MAX_INT && Value(h) <= MAX_INT then Dims(Value(h), Value(w), Channels(magic)) else Undefined
  {
    hide Scan, Header, Here, Channels, Accumulate, Spaces;
    var pnm := Header(magic, s1, w, s2, h, s3, rest);
    HeaderParts(pnm, magic, s1, w, s2, h, s3, rest);
    var a := 2 + |s1|; var b := a + |w|; var c := b + |s2|; var d := c + |h|;
    var ch := Channels(magic);
    ScanEnds(pnm, d, Value(w), Value(h), ch);
    ScanSpaces(pnm, 2, 0, 0, 0, ch, s1);
    ScanDigits(pnm, a, 1, 0, 0, ch, w);
    if Value(w) <= MAX_INT {
      ScanSpaces(pnm, b, 1, Value(w), 0, ch, s2);
      ScanDigits(pnm, c, 2, Value(w), 0, ch, h);
    }
  }

  predicate Blanks(s: seq<Byte>) {
    s != [] && forall b :: b in s ==> b in {9, 10, 11, 12, 13, 32}
  }

  predicate Numeral(s: seq<Byte>) {
    s != [] && forall b :: b in s ==> 48 <= b <= 57
  }

  /** Headers without comments: for P3 and P6 three channels are read, for P1, P2, P4, P5 and every other
      magic byte one, with both dimensions exactly when they fit an int, whatever follows. */
  lemma HeaderRead(magic: Byte, s1: seq<Byte>, w: seq<Byte>, s2: seq<Byte>, h: seq<Byte>, s3: Byte, rest: seq<Byte>)
    requires Blanks(s1) && Blanks(s2) && Blanks([s3]) && Numeral(w) && Numeral(h)
    ensures Digits(w) && Digits(h)
    ensures Peek([80, magic] + s1 + w + s2 + h + [s3] + rest) ==
            if Value(w) <= 0x7fff_ffff && Value(h) <= 0x7fff_ffff
            then Dims(Value(h), Value(w), if magic in {51, 54} then 3 else 1)
            else Undefined
  {
    forall i | 0 <= i < |w| ensures IsDigit(w[i]) {
      assert w[i] in w;
    }
    forall i | 0 <= i < |h| ensures IsDigit(h[i]) {
      assert h[i] in h;
    }
    BlanksAre(s1);
    BlanksAre(s2);
    BlanksAre([s3]);
    assert Spaces([s3]) && [s3][0] == s3;
    assert Channels(magic) == if magic in {51, 54} then 3 else 1;
    hide Peek, Spaces, Digits, Accumulate, Blanks, Numeral;
    HeaderScan(magic, s1, w, s2, h, s3, rest);
  }

  lemma BlanksAre(s: seq<Byte>)
    requires Blanks(s)
    ensures Spaces(s)
  {
    forall i | 0 <= i < |s| ensures IsSpace(s[i]) {
      assert s[i] in s;
    }
  }

  /** Three channels for P3 and P6 and one for every other magic byte, for every input that is read. */
  lemma PeekChannels(pnm: seq<Byte>)
    ensures Peek(pnm).Dims? ==> |pnm| > 2 && Peek(pnm).channels == if pnm[1] in {51, 54} then 3 else 1
  {
    hide Peek, Gap, Number, DigitsEnd, Ended;
    PeekTokens(pnm);
  }

  // What WriteImageScaleBias puts in front of the pixels.
  function WrittenHeader(h: nat, w: nat, c: nat, pixels: seq<Byte>): seq<Byte> {
    [80, if c == 3 then 51 else 50, NEWLINE] + Decimal(w) + [SPACE] + Decimal(h) + [NEWLINE] + [50, 53, 53, NEWLINE] + pixels
  }

  lemma WrittenIsHeader(h: nat, w: nat, c: nat, pixels: seq<Byte>)
    ensures WrittenHeader(h, w, c, pixels) ==
            Header(if c == 3 then 51 else 50, [NEWLINE], Decimal(w), [SPACE], Decimal(h), NEWLINE, [50, 53, 53, NEWLINE] + pixels)
  {
    hide Decimal, Digits;
    var magic: Byte := if c == 3 then 51 else 50;
    assert [80, magic, NEWLINE] == [80, magic] + [NEWLINE];
    var front := [80, magic] + [NEWLINE] + Decimal(w) + [SPACE] + Decimal(h) + [NEWLINE];
    assert front + [50, 53, 53, NEWLINE] + pixels == front + ([50, 53, 53, NEWLINE] + pixels);
  }

  /** Round trip of the written header: for every size in int range the same size is read, and the
      same number of channels exactly when it is one or three. */
  lemma HeaderRoundTrip(h: nat, w: nat, c: nat, pixels: seq<Byte>)
    requires h <= MAX_INT && w <= MAX_INT
    ensures Peek(WrittenHeader(h, w, c, pixels)) == Dims(h, w, if c == 3 then 3 else 1)
    ensures Peek(WrittenHeader(h, w, c, pixels)) == Dims(h, w, c) <==> c == 1 || c == 3
  {
    var magic: Byte := if c == 3 then 51 else 50;
    hide Peek, Decimal, Digits, Accumulate, Header, WrittenHeader;
    DecimalValue(w);
    DecimalValue(h);
    HeaderScan(magic, [NEWLINE], Decimal(w), [SPACE], Decimal(h), NEWLINE, [50, 53, 53, NEWLINE] + pixels);
    WrittenIsHeader(h, w, c, pixels);
  }

  // ---- the scanner without its loop -----------------------------------------------------------------------------

  datatype Found = At(pos: nat) | Missing

  // The token after a separator: a run of whitespace, or a comment up to its first whitespace and the run there.
  function Gap(pnm: seq<Byte>, at: nat): (r: Found)
    requires at <= |pnm|
    ensures r.At? ==> r.pos < |pnm|
  {
    var ws := if at < |pnm| && pnm[at] == HASH then SkipComment(pnm, at + 1) else at;
    if ws == |pnm| || !IsSpace(pnm[ws]) then Missing
    else
      var next := SkipSpaces(pnm, ws + 1);
      if next == |pnm| then Missing else At(next)
  }

  function DigitsEnd(pnm: seq<Byte>, at: nat): (e: nat)
    requires at <= |pnm|
    ensures at <= e <= |pnm| && Digits(pnm[at..e]) && (e < |pnm| ==> !IsDigit(pnm[e]))
    decreases |pnm| - at
  {
    if at == |pnm| || !IsDigit(pnm[at]) then at
    else
      var e := DigitsEnd(pnm, at + 1);
      assert pnm[at..e] == [pnm[at]] + pnm[at + 1..e];
      e
  }

  function Number(pnm: seq<Byte>, at: nat): nat
    requires at <= |pnm|
  {
    Value(pnm[at..DigitsEnd(pnm, at)])
  }

  // The height is followed by whitespace, or by a comment that holds one.
  predicate Ended(pnm: seq<Byte>, at: nat)
    requires at <= |pnm|
  {
    at < |pnm| && (IsSpace(pnm[at]) || (pnm[at] == HASH && SkipComment(pnm, at + 1) < |pnm|))
  }

  function Tokens(pnm: seq<Byte>): Outcome {
    if |pnm| <= 2 then Rejected
    else if IsDigit(pnm[2]) then Undefined
    else
      match Gap(pnm, 2)
      case Missing => Rejected
      case At(a) =>
        if Number(pnm, a) > MAX_INT then Undefined
        else
          match Gap(pnm, DigitsEnd(pnm, a))
          case Missing => Rejected
          case At(b) =>
            if Number(pnm, b) > MAX_INT then Undefined
            else if Ended(pnm, DigitsEnd(pnm, b)) then Dims(Number(pnm, b), Number(pnm, a), Channels(pnm[1]))
            else Rejected
  }

  lemma ScanGap(pnm: seq<Byte>, at: nat, state: nat, w: nat, h: nat, channels: nat)
    requires at <= |pnm| && state < 2 && (at < |pnm| ==> !IsDigit(pnm[at]))
    ensures Scan(pnm, at, state, w, h, channels) ==
            match Gap(pnm, at)
            case Missing => Rejected
            case At(next) => Scan(pnm, next, state + 1, w, h, channels)
  {
    if at < |pnm| && pnm[at] == HASH {
      var j := SkipComment(pnm, at + 1);
      if j < |pnm| {
        assert Scan(pnm, at, state, w, h, channels) == Scan(pnm, j, state, w, h, channels);
      }
    }
  }

  lemma ScanEnded(pnm: seq<Byte>, at: nat, w: nat, h: nat, channels: nat)
    requires at <= |pnm| && (at < |pnm| ==> !IsDigit(pnm[at]))
    ensures Scan(pnm, at, 2, w, h, channels) == if Ended(pnm, at) then Dims(h, w, channels) else Rejected
  {
    if at < |pnm| && pnm[at] == HASH {
      var j := SkipComment(pnm, at + 1);
      if j < |pnm| {
        assert Scan(pnm, at, 2, w, h, channels) == Scan(pnm, j, 2, w, h, channels);
      }
    }
  }

  lemma ScanNumber(pnm: seq<Byte>, at: nat, state: nat, w: nat, channels: nat)
    requires at <= |pnm| && 1 <= state < 3 && (state == 1 ==> w == 0)
    ensures Scan(pnm, at, state, w, 0, channels) ==
            if Number(pnm, at) > MAX_INT then Undefined
            else if state == 1 then Scan(pnm, DigitsEnd(pnm, at), 1, Number(pnm, at), 0, channels)
            else Scan(pnm, DigitsEnd(pnm, at), 2, w, Number(pnm, at), channels)
  {
    hide Scan, Digits;
    var s := pnm[at..DigitsEnd(pnm, at)];
    if s == [] {
      assert Accumulate(0, s) == 0;
    }
    ScanDigits(pnm, at, state, w, 0, channels, s);
  }

  lemma ScanFromSecond(pnm: seq<Byte>, e: nat, w: nat, ch: nat)
    requires e <= |pnm| && (e < |pnm| ==> !IsDigit(pnm[e])) && w <= MAX_INT
    ensures Scan(pnm, e, 1, w, 0, ch) ==
            match Gap(pnm, e)
            case Missing => Rejected
            case At(b) =>
              if Number(pnm, b) > MAX_INT then Undefined
              else if Ended(pnm, DigitsEnd(pnm, b)) then Dims(Number(pnm, b), w, ch)
              else Rejected
  {
    hide Scan, Gap, Number, DigitsEnd, Ended, IsDigit;
    ScanGap(pnm, e, 1, w, 0, ch);
    if Gap(pnm, e).At? {
      var b := Gap(pnm, e).pos;
      ScanNumber(pnm, b, 2, w, ch);
      ScanEnded(pnm, DigitsEnd(pnm, b), w, Number(pnm, b), ch);
    }
  }

  lemma PeekStarts(pnm: seq<Byte>)
    ensures |pnm| <= 2 ==> Peek(pnm).Rejected?
    ensures |pnm| > 2 ==>
              if IsDigit(pnm[2]) then Peek(pnm).Undefined? else Peek(pnm) == Scan(pnm, 2, 0, 0, 0, Channels(pnm[1]))
  {
  }

  /** For every input, what the scanner computes: two numbers, each after a separator. */
  lemma PeekTokens(pnm: seq<Byte>)
    ensures Peek(pnm) == Tokens(pnm)
  {
    hide Scan, Gap, Number, DigitsEnd, Channels, Ended, Peek, IsDigit;
    PeekStarts(pnm);
    if |pnm| > 2 && !IsDigit(pnm[2]) {
      var ch := Channels(pnm[1]);
      ScanGap(pnm, 2, 0, 0, 0, ch);
      if Gap(pnm, 2).At? {
        var a := Gap(pnm, 2).pos;
        ScanNumber(pnm, a, 1, 0, ch);
        if Number(pnm, a) <= MAX_INT {
          ScanFromSecond(pnm, DigitsEnd(pnm, a), Number(pnm, a), ch);
        }
      }
    }
  }

  /** The reading is undefined exactly when a digit follows the magic number directly, or one of the
      numbers that are reached does not fit an int. */
  lemma UndefinedExactly(pnm: seq<Byte>)
    ensures Peek(pnm).Undefined? <==>
              && |pnm| > 2
              && (IsDigit(pnm[2]) ||
                  (Gap(pnm, 2).At? &&
                   var a := Gap(pnm, 2).pos;
                   Number(pnm, a) > MAX_INT ||
                   (Gap(pnm, DigitsEnd(pnm, a)).At? && Number(pnm, Gap(pnm, DigitsEnd(pnm, a)).pos) > MAX_INT)))
  {
    hide Peek, Gap, Number, DigitsEnd, Ended;
    PeekTokens(pnm);
    DigitNoGap(pnm);
  }

  lemma DigitNoGap(pnm: seq<Byte>)
    ensures |pnm| > 2 && IsDigit(pnm[2]) ==> Gap(pnm, 2).Missing?
  {
  }
}
