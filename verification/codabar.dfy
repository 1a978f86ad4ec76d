/**
 The Codabar (NW-7) symbology: the character-to-pattern table, the module
 width stream `setData` accumulates, the colour and geometry `draw` gives
 each element, and the grouped human-readable text.
 */
module Codabar {
  import opened PhpStrings
  import opened Results

  /** `$binaryMap`: the narrow/wide module widths of each character (bar,
      space, bar, space, bar, space, bar); `None` where the table has no entry. */
  function BinaryMap(c: char): Option<seq<int>> {
    match c
    case '1' => Some([1, 1, 1, 1, 2, 2, 1])
    case '2' => Some([1, 1, 1, 2, 1, 1, 2])
    case '3' => Some([2, 2, 1, 1, 1, 1, 1])
    case '4' => Some([1, 1, 2, 1, 1, 2, 1])
    case '5' => Some([2, 1, 1, 1, 1, 2, 1])
    case '6' => Some([1, 2, 1, 1, 1, 1, 2])
    case '7' => Some([1, 2, 1, 1, 2, 1, 1])
    case '8' => Some([1, 2, 2, 1, 1, 1, 1])
    case '9' => Some([2, 1, 1, 2, 1, 1, 1])
    case '0' => Some([1, 1, 1, 1, 1, 2, 2])
    case '-' => Some([1, 1, 1, 2, 2, 1, 1])
    case '$' => Some([1, 1, 2, 2, 1, 1, 1])
    case ':' => Some([2, 1, 1, 1, 2, 1, 2])
    case '/' => Some([2, 1, 2, 1, 1, 1, 2])
    case '.' => Some([2, 1, 2, 1, 2, 1, 1])
    case '*' => Some([1, 1, 1, 2, 1, 2, 2])
    case '+' => Some([1, 1, 2, 1, 2, 1, 2])
    case 'A' => Some([1, 1, 2, 2, 1, 2, 1])
    case 'B' => Some([1, 2, 1, 2, 1, 1, 2])
    case 'C' => Some([1, 1, 1, 2, 1, 2, 2])
    case 'D' => Some([1, 1, 1, 2, 2, 2, 1])
    case 'E' => Some([1, 1, 1, 2, 2, 2, 1])
    case 'N' => Some([1, 2, 1, 2, 1, 1, 2])
    case 'T' => Some([1, 1, 2, 2, 1, 2, 1])
    case _ => None
  }

  /** The 24 characters the table defines, as ASCII ranges: '$'; '*' to ':'
      except ','; 'A' to 'E'; 'N'; 'T' (`KeysAreTableKeys` checks this
      against the table). */
  predicate IsKey(c: char) {
    c == '$' || ('*' <= c <= ':' && c != ',') || 'A' <= c <= 'E' || c == 'N' || c == 'T'
  }

  /** The pattern of a key. */
  function Pattern(c: char): seq<int>
    requires IsKey(c)
  {
    BinaryMap(c).value
  }

  /** The inter-character gap appended after every symbol. */
  const Gap: int := 1

  /** Left and right margin of the drawing, in pixels. */
  const Padding: int := 10

  /** Start and stop characters of a fresh barcode. */
  const DefaultStart: char := 'A'
  const DefaultStop: char := 'B'

  predicate IsPattern(p: seq<int>) {
    |p| == 7 && forall j :: 0 <= j < 7 ==> p[j] == 1 || p[j] == 2
  }

  /** Characters with two wide elements (total width 9); all others have three (width 10). */
  predicate IsNarrowSymbol(c: char) {
    IsDigit(c) || c == '-' || c == '$'
  }

  function Sum(xs: seq<int>): int {
    if xs == [] then 0 else xs[0] + Sum(xs[1..])
  }

  lemma {:induction false} SumAppend(a: seq<int>, b: seq<int>)
    ensures Sum(a + b) == Sum(a) + Sum(b)
  {
    if a == [] {
      assert a + b == b;
    } else {
      assert (a + b)[0] == a[0];
      assert (a + b)[1..] == a[1..] + b;
      SumAppend(a[1..], b);
    }
  }

  /** `IsKey` names exactly the table's keys. */
  lemma KeysAreTableKeys()
    ensures forall c :: IsKey(c) <==> BinaryMap(c).Some?
  {
  }

  /** Total width of a seven-element pattern. */
  function Width(p: seq<int>): int
    requires |p| == 7
  {
    p[0] + p[1] + p[2] + p[3] + p[4] + p[5] + p[6]
  }

  lemma {:induction false} SumSeven(p: seq<int>)
    requires |p| == 7
    ensures Sum(p) == Width(p)
  {
    SumStep(p, 6); SumStep(p, 5); SumStep(p, 4); SumStep(p, 3);
    SumStep(p, 2); SumStep(p, 1); SumStep(p, 0);
    assert p[7..] == [];
    assert p[0..] == p;
  }

  lemma SumStep(p: seq<int>, i: nat)
    requires i < |p|
    ensures Sum(p[i..]) == p[i] + Sum(p[i + 1..])
  {
    assert p[i..][1..] == p[i + 1..];
  }

  /** Every table entry is seven widths of 1 or 2, summing to 9 for digits,
      '-' and '$' and to 10 for every other character. */
  lemma PatternWellFormed(c: char)
    requires IsKey(c)
    ensures IsPattern(Pattern(c))
    ensures Width(Pattern(c)) == if IsNarrowSymbol(c) then 9 else 10
  {
    if '0' <= c <= '4' {
      LowDigitPatterns(c);
    } else if '5' <= c <= '9' {
      HighDigitPatterns(c);
    } else if c == '-' || c == '$' || c == ':' || c == '/' || c == '.' || c == '+' || c == '*' {
      SymbolPatterns(c);
    } else {
      LetterPatterns(c);
    }
  }

  lemma LowDigitPatterns(c: char)
    requires '0' <= c <= '4'
    ensures IsPattern(BinaryMap(c).value) && Width(BinaryMap(c).value) == 9
  {
  }

  lemma HighDigitPatterns(c: char)
    requires '5' <= c <= '9'
    ensures IsPattern(BinaryMap(c).value) && Width(BinaryMap(c).value) == 9
  {
  }

  lemma SymbolPatterns(c: char)
    requires c == '-' || c == '$' || c == ':' || c == '/' || c == '.' || c == '+' || c == '*'
    ensures IsPattern(BinaryMap(c).value)
    ensures Width(BinaryMap(c).value) == if c == '-' || c == '$' then 9 else 10
  {
  }

  lemma LetterPatterns(c: char)
    requires c == 'A' || c == 'B' || c == 'C' || c == 'D' || c == 'E' || c == 'N' || c == 'T'
    ensures IsPattern(BinaryMap(c).value) && Width(BinaryMap(c).value) == 10
  {
  }

  /** The alias start/stop letters share their partner's pattern, and '*' shares C's. */
  lemma AliasesSharePatterns()
    ensures BinaryMap('T').value == BinaryMap('A').value
    ensures BinaryMap('N').value == BinaryMap('B').value
    ensures BinaryMap('*').value == BinaryMap('C').value
    ensures BinaryMap('E').value == BinaryMap('D').value
  {
  }

  /** The characters `setData` encodes: the sentinels around the data. */
  function Framed(start: char, s: string, stop: char): (cs: string)
    ensures |cs| == |s| + 2 && cs[0] == start && cs[|cs| - 1] == stop
    ensures cs[1..|cs| - 1] == s
  {
    [start] + s + [stop]
  }

  predicate Encodable(cs: string) {
    forall i :: 0 <= i < |cs| ==> IsKey(cs[i])
  }

  /** One symbol's eight elements: its pattern, then the gap. */
  function Block(c: char): (b: seq<int>)
    requires IsKey(c)
    ensures |b| == 8 && b[7] == Gap
  {
    PatternWellFormed(c);
    Pattern(c) + [Gap]
  }

  /** A block holds widths 1 and 2 only and spans 10 modules for the narrow
      symbols, 11 for the others. */
  lemma BlockShape(c: char)
    requires IsKey(c)
    ensures forall j :: 0 <= j < 8 ==> Block(c)[j] == 1 || Block(c)[j] == 2
    ensures Sum(Block(c)) == if IsNarrowSymbol(c) then 10 else 11
  {
    PatternWellFormed(c);
    SumAppend(Pattern(c), [Gap]);
    SumSeven(Pattern(c));
  }

  /** The width stream of a string of table characters: one block per character. */
  function EncodeChars(cs: string): (r: seq<int>)
    requires Encodable(cs)
    ensures |r| == 8 * |cs|
  {
    if cs == [] then [] else Block(cs[0]) + EncodeChars(cs[1..])
  }

  /** Every element of the stream is a width of 1 or 2, and every eighth
      element (offset 7 within its block) is the inter-character gap. */
  lemma {:induction false} EncodeCharsShape(cs: string)
    requires Encodable(cs)
    ensures forall i :: 0 <= i < |EncodeChars(cs)| ==> EncodeChars(cs)[i] == 1 || EncodeChars(cs)[i] == 2
    ensures forall i :: 0 <= i < |EncodeChars(cs)| && i % 8 == 7 ==> EncodeChars(cs)[i] == Gap
  {
    if cs != [] {
      var b := Block(cs[0]);
      var rest := EncodeChars(cs[1..]);
      BlockShape(cs[0]);
      EncodeCharsShape(cs[1..]);
      assert EncodeChars(cs) == b + rest;
      forall i | 8 <= i < |b + rest|
        ensures (b + rest)[i] == rest[i - 8] && (i - 8) % 8 == i % 8
      {
      }
    }
  }

  /** Encoding distributes over concatenation. */
  lemma {:induction false} EncodeCharsAppend(a: string, b: string)
    requires Encodable(a) && Encodable(b)
    ensures Encodable(a + b)
    ensures EncodeChars(a + b) == EncodeChars(a) + EncodeChars(b)
  {
    EncodableConcat(a, b);
    if a == [] {
      assert a + b == b;
    } else {
      assert (a + b)[0] == a[0];
      assert (a + b)[1..] == a[1..] + b;
      EncodableSlice(a, 1, |a|);
      EncodeCharsAppend(a[1..], b);
      ConcatAssoc(Block(a[0]), EncodeChars(a[1..]), EncodeChars(b));
    }
  }

  /** The concatenation of two encodable strings is encodable. */
  lemma EncodableConcat(a: string, b: string)
    requires Encodable(a) && Encodable(b)
    ensures Encodable(a + b)
  {
    forall i | 0 <= i < |a + b|
      ensures IsKey((a + b)[i])
    {
      if i >= |a| {
        assert (a + b)[i] == b[i - |a|];
      }
    }
  }

  /** Every slice of an encodable string is encodable. */
  lemma EncodableSlice(cs: string, i: nat, j: nat)
    requires Encodable(cs) && i <= j <= |cs|
    ensures Encodable(cs[i..j])
  {
    forall n | 0 <= n < j - i
      ensures IsKey(cs[i..j][n])
    {
      assert cs[i..j][n] == cs[i + n];
    }
  }

  /** A string is its prefix, its k-th character and its suffix. */
  lemma SplitAt(cs: string, k: nat)
    requires k < |cs|
    ensures cs == cs[..k] + [cs[k]] + cs[k + 1..]
  {
  }

  /** A single character's stream is its block. */
  lemma EncodeCharsSingle(c: char)
    requires IsKey(c)
    ensures EncodeChars([c]) == Block(c)
  {
    assert [c][1..] == [];
    assert Block(c) + [] == Block(c);
  }

  /** Block `k` of the stream (indices 8k .. 8k+7) is the block of character `k`. */
  lemma EncodeCharsBlock(cs: string, k: nat)
    requires Encodable(cs) && k < |cs|
    ensures EncodeChars(cs)[8 * k..8 * k + 8] == Block(cs[k])
  {
    var pre, c, post := cs[..k], cs[k], cs[k + 1..];
    EncodableSlice(cs, 0, k);
    EncodableSlice(cs, k + 1, |cs|);
    var a, b := EncodeChars(pre), EncodeChars(post);
    assert EncodeChars(cs) == a + Block(c) + b by {
      SplitAt(cs, k);
      EncodeCharsSplit(pre, c, post);
    }
    MiddleSlice(a, Block(c), b);
  }

  /** The stream of `pre`, one more character and `post` is their three streams. */
  lemma EncodeCharsSplit(pre: string, c: char, post: string)
    requires Encodable(pre) && IsKey(c) && Encodable(post)
    ensures Encodable(pre + [c] + post)
    ensures EncodeChars(pre + [c] + post) == EncodeChars(pre) + Block(c) + EncodeChars(post)
  {
    assert Encodable([c]);
    EncodeCharsAppend(pre, [c]);
    EncodeCharsAppend(pre + [c], post);
    EncodeCharsSingle(c);
  }

  /** The middle part of a three-way concatenation can be sliced back out. */
  lemma MiddleSlice<T>(a: seq<T>, b: seq<T>, c: seq<T>)
    ensures (a + b + c)[|a|..|a| + |b|] == b
  {
  }

  /** The symbol for `s` between the `start` and `stop` sentinels: 8 elements per
      character, the start block first and the stop block last. */
  function Encode(start: char, s: string, stop: char): (r: seq<int>)
    requires IsKey(start) && Encodable(s) && IsKey(stop)
    ensures |r| == 8 * (|s| + 2)
    ensures r[..8] == Block(start) && r[|r| - 8..] == Block(stop)
  {
    var cs := Framed(start, s, stop);
    EncodeCharsBlock(cs, 0);
    EncodeCharsBlock(cs, |s| + 1);
    EncodeChars(cs)
  }

  /** The symbol holds widths 1 and 2 only, with a gap closing every block. */
  lemma EncodeShape(start: char, s: string, stop: char)
    requires IsKey(start) && Encodable(s) && IsKey(stop)
    ensures var r := Encode(start, s, stop);
      (forall i :: 0 <= i < |r| ==> r[i] == 1 || r[i] == 2) &&
      (forall i :: 0 <= i < |r| && i % 8 == 7 ==> r[i] == Gap)
  {
    FramedEncodable(start, s, stop);
    EncodeCharsShape(Framed(start, s, stop));
  }

  lemma FramedEncodable(start: char, s: string, stop: char)
    requires IsKey(start) && Encodable(s) && IsKey(stop)
    ensures Encodable(Framed(start, s, stop))
  {
    var cs := Framed(start, s, stop);
    forall i | 0 <= i < |cs|
      ensures IsKey(cs[i])
    {
      if 0 < i <= |s| {
        assert cs[i] == s[i - 1];
      }
    }
  }

  /** Block `k + 1` of the symbol (indices 8(k+1) .. 8(k+1)+7) is data character `k`. */
  lemma EncodeDataBlock(start: char, s: string, stop: char, k: nat)
    requires IsKey(start) && Encodable(s) && IsKey(stop) && k < |s|
    ensures IsKey(s[k])
    ensures Encode(start, s, stop)[8 * (k + 1)..8 * (k + 2)] == Block(s[k])
  {
    var cs := Framed(start, s, stop);
    assert cs[k + 1] == s[k];
    EncodeCharsBlock(cs, k + 1);
  }

  /** What PHP's lookup yields: the pattern, or nothing for a missing key,
      since `foreach` over the null a missing key gives runs no iteration. */
  function Lookup(c: char): seq<int> {
    if IsKey(c) then Pattern(c) else []
  }

  /** A lookup yields at most seven widths, each 1 or 2. */
  lemma LookupWidths(c: char)
    ensures |Lookup(c)| <= 7
    ensures forall j :: 0 <= j < |Lookup(c)| ==> Lookup(c)[j] == 1 || Lookup(c)[j] == 2
  {
    if IsKey(c) {
      PatternWellFormed(c);
    }
  }

  /** The loop of `setData` as written: a missing key adds no widths but
      still adds the gap. */
  function EncodeLoose(cs: string): seq<int> {
    if cs == [] then []
    else Lookup(cs[0]) + [Gap] + EncodeLoose(cs[1..])
  }

  /** A run of characters with no table entry adds one gap per character and nothing else. */
  lemma {:induction false} EncodeLooseUnmapped(w: string)
    requires forall i :: 0 <= i < |w| ==> !IsKey(w[i])
    ensures |EncodeLoose(w)| == |w|
    ensures forall i :: 0 <= i < |w| ==> EncodeLoose(w)[i] == Gap
  {
    if w != [] {
      EncodeLooseUnmapped(w[1..]);
      assert EncodeLoose(w) == [Gap] + EncodeLoose(w[1..]);
    }
  }

  /** Each character adds one to eight widths, every one of them 1 or 2. */
  lemma {:induction false} EncodeLooseShape(cs: string)
    ensures |cs| <= |EncodeLoose(cs)| <= 8 * |cs|
    ensures forall i :: 0 <= i < |EncodeLoose(cs)| ==> EncodeLoose(cs)[i] == 1 || EncodeLoose(cs)[i] == 2
  {
    if cs != [] {
      LookupWidths(cs[0]);
      EncodeLooseShape(cs[1..]);
      var p := Lookup(cs[0]) + [Gap];
      var rest := EncodeLoose(cs[1..]);
      forall i | |p| <= i < |p + rest|
        ensures (p + rest)[i] == rest[i - |p|]
      {
      }
    }
  }

  /** On table characters the loose loop and the strict encoder agree. */
  lemma {:induction false} EncodeLooseAgrees(cs: string)
    requires Encodable(cs)
    ensures EncodeLoose(cs) == EncodeChars(cs)
  {
    if cs != [] {
      EncodeLooseAgrees(cs[1..]);
    }
  }

  /** The loose encoding of a concatenation is the concatenation of encodings. */
  lemma {:induction false} EncodeLooseAppend(a: string, b: string)
    ensures EncodeLoose(a + b) == EncodeLoose(a) + EncodeLoose(b)
  {
    if a == [] {
      assert a + b == b;
    } else {
      assert (a + b)[0] == a[0];
      assert (a + b)[1..] == a[1..] + b;
      EncodeLooseAppend(a[1..], b);
    }
  }

  /** One more character of a prefix adds that character's widths and gap. */
  lemma EncodeLoosePrefixStep(cs: string, i: nat)
    requires i < |cs|
    ensures EncodeLoose(cs[..i + 1]) == EncodeLoose(cs[..i]) + EncodeLoose([cs[i]])
  {
    assert cs[..i + 1] == cs[..i] + [cs[i]];
    EncodeLooseAppend(cs[..i], [cs[i]]);
  }

  /** Each symbol contributes 10 or 11 modules, so the total module count of
      a string of table characters lies between 10 and 11 per character. */
  lemma {:induction false} CodeLengthBounds(cs: string)
    requires Encodable(cs)
    ensures 10 * |cs| <= Sum(EncodeChars(cs)) <= 11 * |cs|
  {
    if cs != [] {
      BlockShape(cs[0]);
      SumAppend(Block(cs[0]), EncodeChars(cs[1..]));
      CodeLengthBounds(cs[1..]);
    }
  }

  /** Every character, mapped or not, contributes at least its gap. */
  lemma {:induction false} LooseCodeLengthAtLeast(cs: string)
    ensures Sum(EncodeLoose(cs)) >= |cs|
  {
    if cs != [] {
      var rest := EncodeLoose(cs[1..]);
      SumAppend(Lookup(cs[0]) + [Gap], rest);
      SumAppend(Lookup(cs[0]), [Gap]);
      LookupWidths(cs[0]);
      SumPositive(Lookup(cs[0]));
      LooseCodeLengthAtLeast(cs[1..]);
    }
  }

  lemma {:induction false} SumPositive(xs: seq<int>)
    requires forall i :: 0 <= i < |xs| ==> xs[i] >= 1
    ensures Sum(xs) >= |xs|
  {
    if xs != [] {
      SumPositive(xs[1..]);
    }
  }

  /** A single character contributes its lookup and the gap. */
  lemma EncodeLooseSingle(c: char)
    ensures EncodeLoose([c]) == Lookup(c) + [Gap]
  {
    assert [c][1..] == [];
    assert Lookup(c) + [Gap] + [] == Lookup(c) + [Gap];
  }

  lemma ConcatAssoc<T>(a: seq<T>, b: seq<T>, c: seq<T>)
    ensures a + b + c == a + (b + c)
  {
  }

  /** The inner loop of `setData`: the widths of one pattern, one by one. */
  method AppendWidths(acc: seq<int>, p: seq<int>) returns (out: seq<int>)
    ensures out == acc + p
  {
    out := acc;
    var j := 0;
    while j < |p|
      invariant 0 <= j <= |p|
      invariant out == acc + p[..j]
    {
      assert p[..j + 1] == p[..j] + [p[j]];
      out := out + [p[j]];
      j := j + 1;
    }
    assert p[..j] == p;
  }

  /** The loops of `setData`: for each character, its widths (none for a
      character with no entry), then the gap. */
  method AppendEncoding(binary: seq<int>, chars: string) returns (out: seq<int>)
    ensures out == binary + EncodeLoose(chars)
  {
    out := binary;
    var i := 0;
    while i < |chars|
      invariant 0 <= i <= |chars|
      invariant out == binary + EncodeLoose(chars[..i])
    {
      ghost var before := out;
      var p := Lookup(chars[i]);
      out := AppendWidths(out, p);
      out := out + [Gap];
      EncodeLooseSingle(chars[i]);
      EncodeLoosePrefixStep(chars, i);
      ConcatAssoc(before, p, [Gap]);
      ConcatAssoc(binary, EncodeLoose(chars[..i]), p + [Gap]);
      i := i + 1;
    }
    assert chars[..i] == chars;
  }

  datatype State = State(code: string, binary: seq<int>, start: char, stop: char)

  /** A freshly constructed barcode: empty code and stream, sentinels A and B. */
  const Initial: State := State("", [], DefaultStart, DefaultStop)

  /** Every element of the stream is a width of 1 or 2. */
  predicate WellFormed(st: State) {
    forall i :: 0 <= i < |st.binary| ==> st.binary[i] == 1 || st.binary[i] == 2
  }

  /** `setData`: `code` becomes the trimmed upper-cased data; the widths of
      the untrimmed upper-cased data, framed by the sentinels, are appended
      to `binary`. */
  function ApplySetData(st: State, data: string): (st': State)
    ensures st'.start == st.start && st'.stop == st.stop
    ensures st'.code == Trim(Upper(data))
  {
    var cs := Framed(st.start, Upper(data), st.stop);
    State(Trim(Upper(data)), st.binary + EncodeLoose(cs), st.start, st.stop)
  }

  /** `setData` only appends: the old stream is kept as a prefix, at least
      one element per framed character follows it, and for table characters
      what follows is exactly the framed symbol. */
  lemma SetDataAppendsSymbol(st: State, data: string)
    ensures var st' := ApplySetData(st, data);
      |st'.binary| >= |st.binary| + |data| + 2 &&
      st'.binary[..|st.binary|] == st.binary
    ensures IsKey(st.start) && Encodable(Upper(data)) && IsKey(st.stop)
        ==> ApplySetData(st, data).binary[|st.binary|..] == Encode(st.start, Upper(data), st.stop)
  {
    var cs := Framed(st.start, Upper(data), st.stop);
    var enc := EncodeLoose(cs);
    var b := st.binary + enc;
    EncodeLooseShape(cs);
    assert b[..|st.binary|] == st.binary && b[|st.binary|..] == enc;
    if IsKey(st.start) && Encodable(Upper(data)) && IsKey(st.stop) {
      FramedEncodable(st.start, Upper(data), st.stop);
      EncodeLooseAgrees(cs);
    }
  }

  /** `setData` encodes the data before trimming: leading whitespace leaves
      the stored code as it is, yet still adds one gap per stripped character
      to the stream. */
  lemma SetDataEncodesUntrimmed(st: State, w: string, d: string)
    requires forall i :: 0 <= i < |w| ==> IsTrimmed(w[i])
    ensures ApplySetData(st, w + d).code == ApplySetData(st, d).code
    ensures |ApplySetData(st, w + d).binary| == |ApplySetData(st, d).binary| + |w|
    ensures ApplySetData(st, w + d).binary
         == st.binary + EncodeLoose([st.start]) + seq(|w|, _ => Gap) + EncodeLoose(Upper(d) + [st.stop])
  {
    var u := Upper(d);
    var tail := u + [st.stop];
    UpperKeepsTrimmed(w, d);
    assert ApplySetData(st, w + d).code == ApplySetData(st, d).code by {
      TrimStartSkips(w, u);
    }
    assert ApplySetData(st, w + d).binary == st.binary + EncodeLoose([st.start] + w + tail) by {
      assert Framed(st.start, w + u, st.stop) == [st.start] + w + tail;
    }
    assert ApplySetData(st, d).binary == st.binary + EncodeLoose([st.start] + tail) by {
      assert Framed(st.start, u, st.stop) == [st.start] + tail;
    }
    UnmappedRunGaps(st.start, w, tail);
  }

  /** Upper-casing leaves a run of trimmed characters in front of the data as it is. */
  lemma UpperKeepsTrimmed(w: string, d: string)
    requires forall i :: 0 <= i < |w| ==> IsTrimmed(w[i])
    ensures Upper(w + d) == w + Upper(d)
  {
    UpperAppend(w, d);
    UpperEffect(w);
    assert Upper(w) == w;
  }

  /** A run of trimmed characters after the first character puts one gap per
      character between that character's elements and the rest. */
  lemma UnmappedRunGaps(c: char, w: string, tail: string)
    requires forall i :: 0 <= i < |w| ==> IsTrimmed(w[i])
    ensures EncodeLoose([c] + w + tail) == EncodeLoose([c]) + seq(|w|, _ => Gap) + EncodeLoose(tail)
    ensures |EncodeLoose([c] + w + tail)| == |EncodeLoose([c] + tail)| + |w|
  {
    forall i | 0 <= i < |w|
      ensures !IsKey(w[i])
    {
    }
    EncodeLooseUnmapped(w);
    assert EncodeLoose(w) == seq(|w|, _ => Gap);
    EncodeLooseAppend([c] + w, tail);
    EncodeLooseAppend([c], w);
    EncodeLooseAppend([c], tail);
  }

  /** A character with no table entry adds a single element instead of eight,
      so every later element changes colour: for the data "#" the stream has
      17 elements and the stop character's first bar, at position 10, is
      drawn white. */
  lemma UnmappedCharFlipsColours(c: char, width: int, bottom: int)
    requires !IsKey(UpperChar(c))
    ensures var b := ApplySetData(Initial, [c]).binary;
      && |b| == 17
      && b[9..16] == Pattern(DefaultStop)
      && Sum(b) != 0
      && DrawBars(b, width, bottom).value[9].colour == White
  {
    var u := UpperChar(c);
    assert Upper([c]) == [u];
    var cs := Framed(DefaultStart, [u], DefaultStop);
    assert cs == [DefaultStart] + [u] + [DefaultStop];
    EncodeLooseAppend([DefaultStart] + [u], [DefaultStop]);
    EncodeLooseAppend([DefaultStart], [u]);
    EncodeLooseSingle(DefaultStart);
    EncodeLooseSingle(u);
    EncodeLooseSingle(DefaultStop);
    var b := ApplySetData(Initial, [c]).binary;
    var pa, pb := Pattern(DefaultStart), Pattern(DefaultStop);
    assert b == pa + [Gap] + [Gap] + (pb + [Gap]);
    PatternWellFormed(DefaultStart);
    PatternWellFormed(DefaultStop);
    assert b[9..16] == pb;
    CodeLengthPositiveAfterSetData(Initial, [c]);
    DrawBarsColours(b, width, bottom);
  }

  /** `setData` keeps every element of the stream a width of 1 or 2. */
  lemma SetDataKeepsWellFormed(st: State, data: string)
    requires WellFormed(st)
    ensures WellFormed(ApplySetData(st, data))
  {
    var cs := Framed(st.start, Upper(data), st.stop);
    var enc := EncodeLoose(cs);
    EncodeLooseShape(cs);
    forall i | |st.binary| <= i < |st.binary + enc|
      ensures (st.binary + enc)[i] == enc[i - |st.binary|]
    {
    }
  }

  /** The stream is never reset: two calls leave both symbols, in order. */
  lemma SetDataAccumulates(st: State, a: string, b: string)
    requires IsKey(st.start) && IsKey(st.stop)
    requires Encodable(Upper(a)) && Encodable(Upper(b))
    ensures ApplySetData(ApplySetData(st, a), b).binary
         == st.binary + Encode(st.start, Upper(a), st.stop) + Encode(st.start, Upper(b), st.stop)
    ensures ApplySetData(ApplySetData(st, a), b).code == Trim(Upper(b))
  {
    var st1 := ApplySetData(st, a);
    var st2 := ApplySetData(st1, b);
    SetDataAppendsSymbol(st, a);
    SetDataAppendsSymbol(st1, b);
    var e1 := Encode(st.start, Upper(a), st.stop);
    var e2 := Encode(st.start, Upper(b), st.stop);
    assert st1.binary == st.binary + e1 by {
      assert st1.binary == st1.binary[..|st.binary|] + st1.binary[|st.binary|..];
    }
    assert st2.binary == st1.binary + e2 by {
      assert st2.binary == st2.binary[..|st1.binary|] + st2.binary[|st1.binary|..];
    }
  }

  /** After any `setData` the module count is positive (at least one per
      character), so the scale division in `draw` is defined. */
  lemma CodeLengthPositiveAfterSetData(st: State, data: string)
    requires WellFormed(st)
    ensures Sum(ApplySetData(st, data).binary) >= |data| + 2
  {
    var cs := Framed(st.start, Upper(data), st.stop);
    SumAppend(st.binary, EncodeLoose(cs));
    SumPositive(st.binary);
    LooseCodeLengthAtLeast(cs);
  }

  /** After one `setData` of table characters on a fresh barcode, the module
      count is 10 to 11 per symbol. */
  lemma CodeLengthAfterFirstSetData(data: string)
    requires Encodable(Upper(data))
    ensures var n := |data| + 2;
      10 * n <= Sum(ApplySetData(Initial, data).binary) <= 11 * n
  {
    var cs := Framed(DefaultStart, Upper(data), DefaultStop);
    FramedEncodable(DefaultStart, Upper(data), DefaultStop);
    EncodeLooseAgrees(cs);
    assert ApplySetData(Initial, data).binary == [] + EncodeChars(cs);
    assert [] + EncodeChars(cs) == EncodeChars(cs);
    CodeLengthBounds(cs);
  }

  datatype Colour = Black | White

  /** `draw` fills the element at 1-based position `pos` white when `pos` is even. */
  function ColourAt(pos: nat): Colour {
    if pos % 2 == 0 then White else Black
  }

  /** In an encoded symbol every gap is drawn white and every character
      starts with a black bar, the first width of its pattern. */
  lemma GapsWhiteBarsBlack(start: char, s: string, stop: char, pos: nat)
    requires IsKey(start) && Encodable(s) && IsKey(stop) && 1 <= pos <= 8 * (|s| + 2)
    ensures pos % 8 == 0 ==> Encode(start, s, stop)[pos - 1] == Gap && ColourAt(pos) == White
    ensures pos % 8 == 1 ==> var cs := Framed(start, s, stop);
      && IsKey(cs[(pos - 1) / 8])
      && Encode(start, s, stop)[pos - 1] == Pattern(cs[(pos - 1) / 8])[0]
      && ColourAt(pos) == Black
  {
    EighthParity(pos);
    if pos % 8 == 0 {
      EncodeShape(start, s, stop);
    } else if pos % 8 == 1 {
      BlockStartsWithPattern(start, s, stop, (pos - 1) / 8);
    }
  }

  /** A block boundary is even, and the position after it is odd and starts a block. */
  lemma EighthParity(pos: nat)
    ensures pos % 8 == 0 ==> pos % 2 == 0 && (pos - 1) % 8 == 7
    ensures pos % 8 == 1 ==> pos % 2 == 1 && pos - 1 == 8 * ((pos - 1) / 8)
  {
  }

  /** Element 8k of the symbol is the first width of character k's pattern. */
  lemma BlockStartsWithPattern(start: char, s: string, stop: char, k: nat)
    requires IsKey(start) && Encodable(s) && IsKey(stop) && k < |s| + 2
    ensures IsKey(Framed(start, s, stop)[k])
    ensures Encode(start, s, stop)[8 * k] == Pattern(Framed(start, s, stop)[k])[0]
  {
    var cs := Framed(start, s, stop);
    FramedEncodable(start, s, stop);
    EncodeCharsBlock(cs, k);
    assert Encode(start, s, stop) == EncodeChars(cs);
    assert EncodeChars(cs)[8 * k] == EncodeChars(cs)[8 * k..8 * k + 8][0];
  }

  /** One filled rectangle: from x1 to x2, from the top down to `bottom`. */
  datatype Rect = Rect(x1: real, x2: real, bottom: int, colour: Colour)

  function RealSum(xs: seq<real>): real {
    if xs == [] then 0.0 else xs[0] + RealSum(xs[1..])
  }

  /** The pixel width of every element: its module width times the scale. */
  function ScaleAll(bs: seq<int>, scale: real): (ws: seq<real>)
    ensures |ws| == |bs|
  {
    if bs == [] then [] else [bs[0] as real * scale] + ScaleAll(bs[1..], scale)
  }

  /** Element `k` of the scaled widths is `bs[k]` times the scale. */
  lemma {:induction false} ScaleAllAt(bs: seq<int>, scale: real)
    ensures forall k :: 0 <= k < |bs| ==> ScaleAll(bs, scale)[k] == bs[k] as real * scale
  {
    if bs != [] {
      ScaleAllAt(bs[1..], scale);
      var ws := ScaleAll(bs, scale);
      forall k | 1 <= k < |bs|
        ensures ws[k] == bs[k] as real * scale
      {
        assert ws[k] == ScaleAll(bs[1..], scale)[k - 1] && bs[k] == bs[1..][k - 1];
      }
    }
  }

  /** Scaling each width and adding up is scaling the module count. */
  lemma {:induction false} ScaledSum(bs: seq<int>, scale: real)
    ensures RealSum(ScaleAll(bs, scale)) == Sum(bs) as real * scale
  {
    if bs != [] {
      ScaledSum(bs[1..], scale);
      assert ScaleAll(bs, scale)[1..] == ScaleAll(bs[1..], scale);
      assert (bs[0] + Sum(bs[1..])) as real == bs[0] as real + Sum(bs[1..]) as real;
      Distributes(bs[0] as real, Sum(bs[1..]) as real, scale);
    }
  }

  lemma Distributes(a: real, b: real, c: real)
    ensures (a + b) * c == a * c + b * c
  {
  }

  /** The drawing loop from 1-based position `pos` on, starting at `x`: each
      rectangle is as wide as its element and starts where the last ended. */
  function Bars(ws: seq<real>, x: real, pos: nat, bottom: int): (rs: seq<Rect>)
    ensures |rs| == |ws|
  {
    if ws == [] then []
    else [Rect(x, x + ws[0], bottom, ColourAt(pos))] + Bars(ws[1..], x + ws[0], pos + 1, bottom)
  }

  /** Rectangle `k` has the colour of position `pos + k`, is `ws[k]` wide,
      and starts where rectangle `k - 1` ends; the first starts at `x`. */
  lemma {:induction false} BarsShape(ws: seq<real>, x: real, pos: nat, bottom: int)
    ensures var rs := Bars(ws, x, pos, bottom);
      && (forall k :: 0 <= k < |rs| ==> rs[k].colour == ColourAt(pos + k) && rs[k].bottom == bottom)
      && (forall k :: 0 <= k < |rs| ==> rs[k].x2 == rs[k].x1 + ws[k])
      && (|rs| > 0 ==> rs[0].x1 == x)
      && (forall k :: 0 <= k < |rs| - 1 ==> rs[k].x2 == rs[k + 1].x1)
  {
    if ws != [] {
      var x2 := x + ws[0];
      var rest := Bars(ws[1..], x2, pos + 1, bottom);
      var rs := Bars(ws, x, pos, bottom);
      BarsShape(ws[1..], x2, pos + 1, bottom);
      assert rs == [Rect(x, x2, bottom, ColourAt(pos))] + rest;
      forall k | 1 <= k < |rs|
        ensures rs[k] == rest[k - 1] && ws[k] == ws[1..][k - 1]
      {
      }
    }
  }

  /** The last rectangle ends at the start plus the total of the widths. */
  lemma {:induction false} BarsRightEdge(ws: seq<real>, x: real, pos: nat, bottom: int)
    requires |ws| > 0
    ensures Bars(ws, x, pos, bottom)[|ws| - 1].x2 == x + RealSum(ws)
  {
    if |ws| > 1 {
      BarsRightEdge(ws[1..], x + ws[0], pos + 1, bottom);
      assert Bars(ws, x, pos, bottom)[|ws| - 1] == Bars(ws[1..], x + ws[0], pos + 1, bottom)[|ws| - 2];
    }
  }

  /** Pixels per module: the width between the margins over the module count. */
  function Scale(bs: seq<int>, width: int): real
    requires Sum(bs) != 0
  {
    (width - Padding * 2) as real / Sum(bs) as real
  }

  /** All modules together span the width between the margins. */
  lemma ScaleFills(bs: seq<int>, width: int)
    requires Sum(bs) != 0
    ensures Sum(bs) as real * Scale(bs, width) == (width - Padding * 2) as real
  {
  }

  datatype DrawError = DivisionByZero

  /** What `draw` produces: the rectangles and, with human text on, the caption. */
  datatype Picture = Picture(bars: seq<Rect>, caption: Option<string>)

  /** The rectangle loop of `draw` for the stream `bs` on a canvas `width`
      pixels wide, bars reaching down to `bottom`; a module count of zero
      makes the scale a division by zero. */
  function DrawBars(bs: seq<int>, width: int, bottom: int): (r: Result<seq<Rect>, DrawError>)
    ensures r.Err? <==> Sum(bs) == 0
    ensures r.Ok? ==> |r.value| == |bs|
  {
    if Sum(bs) == 0 then Err(DivisionByZero)
    else Ok(Bars(ScaleAll(bs, Scale(bs, width)), Padding as real, 1, bottom))
  }

  /** The drawn rectangles alternate black and white starting with black,
      reach down to `bottom`, are contiguous, and start at the left margin. */
  lemma DrawBarsColours(bs: seq<int>, width: int, bottom: int)
    requires Sum(bs) != 0
    ensures var rs := DrawBars(bs, width, bottom).value;
      && (forall k :: 0 <= k < |rs| ==> rs[k].colour == ColourAt(k + 1) && rs[k].bottom == bottom)
      && (forall k :: 0 <= k < |rs| - 1 ==> rs[k].x2 == rs[k + 1].x1)
      && (|rs| > 0 ==> rs[0].x1 == Padding as real)
  {
    BarsShape(ScaleAll(bs, Scale(bs, width)), Padding as real, 1, bottom);
  }

  /** Each drawn rectangle is as wide as its element times the scale. */
  lemma DrawBarsWidths(bs: seq<int>, width: int, bottom: int)
    requires Sum(bs) != 0
    ensures var rs := DrawBars(bs, width, bottom).value;
      forall k :: 0 <= k < |rs| ==> rs[k].x2 - rs[k].x1 == bs[k] as real * Scale(bs, width)
  {
    ScaledBarWidths(bs, Scale(bs, width), bottom);
  }

  /** The drawn rectangles end exactly at the right margin. */
  lemma DrawBarsFill(bs: seq<int>, width: int, bottom: int)
    requires Sum(bs) != 0
    ensures var rs := DrawBars(bs, width, bottom).value;
      |rs| > 0 && rs[|rs| - 1].x2 == (width - Padding) as real
  {
    ScaledBarsFill(bs, width, bottom);
  }

  /** Each rectangle of the drawing is its element's width times the scale. */
  lemma ScaledBarWidths(bs: seq<int>, scale: real, bottom: int)
    ensures var bars := Bars(ScaleAll(bs, scale), Padding as real, 1, bottom);
      forall k :: 0 <= k < |bs| ==> bars[k].x2 - bars[k].x1 == bs[k] as real * scale
  {
    var ws := ScaleAll(bs, scale);
    var bars := Bars(ws, Padding as real, 1, bottom);
    BarsShape(ws, Padding as real, 1, bottom);
    ScaleAllAt(bs, scale);
    forall k | 0 <= k < |bs|
      ensures bars[k].x2 - bars[k].x1 == bs[k] as real * scale
    {
      assert bars[k].x2 == bars[k].x1 + ws[k];
    }
  }

  /** The last rectangle of the drawing ends at the right margin. */
  lemma ScaledBarsFill(bs: seq<int>, width: int, bottom: int)
    requires Sum(bs) != 0
    ensures |bs| > 0
    ensures Bars(ScaleAll(bs, Scale(bs, width)), Padding as real, 1, bottom)[|bs| - 1].x2
         == (width - Padding) as real
  {
    var scale := Scale(bs, width);
    var ws := ScaleAll(bs, scale);
    BarsRightEdge(ws, Padding as real, 1, bottom);
    ScaledSum(bs, scale);
    ScaleFills(bs, width);
  }

  /** `draw` for a canvas `width` by `height`; `fontHeight` stands for the
      font metric the graphics library reports. The bars stop above the text
      band, and the caption is the grouped code exactly when human text is on. */
  function Draw(st: State, width: int, height: int, humanText: bool, fontHeight: int)
    : (r: Result<Picture, DrawError>)
    ensures r.Err? <==> Sum(st.binary) == 0
    ensures r.Ok? ==> DrawBars(st.binary, width, height - (if humanText then fontHeight else 0))
                      == Ok(r.value.bars)
    ensures r.Ok? ==> (r.value.caption.Some? <==> humanText)
    ensures r.Ok? && humanText ==> r.value.caption == Some(Printable(st.code))
  {
    var textHeight := if humanText then fontHeight else 0;
    var bars := DrawBars(st.binary, width, height - textHeight);
    if bars.Err? then Err(bars.error)
    else Ok(Picture(bars.value, if humanText then Some(Printable(st.code)) else None))
  }

  /** Drawing after `setData` never divides by zero. */
  lemma DrawAfterSetDataSucceeds(st: State, data: string, width: int, height: int,
                                 humanText: bool, fontHeight: int)
    requires WellFormed(st)
    ensures Draw(ApplySetData(st, data), width, height, humanText, fontHeight).Ok?
  {
    CodeLengthPositiveAfterSetData(st, data);
  }

  /** Index in the grouped text of character `i` of the code. */
  function Slot(i: nat): nat {
    i + (if i >= 1 then 1 else 0) + (if i >= 5 then 1 else 0) + (if i >= 10 then 1 else 0)
  }

  function Min(a: int, b: int): int {
    if a <= b then a else b
  }

  /** Where separating space `g` (1, 2 or 3) lands for a code of length `n`. */
  function Separator(n: nat, g: nat): nat
    requires 1 <= g <= 3
  {
    if g == 1 then Min(n, 1) else if g == 2 then Min(n, 5) + 1 else Min(n, 10) + 2
  }

  /** `getPrintable`: the code's first 15 characters in groups of 1, 4, 5 and 5. */
  function Printable(code: string): (t: string)
    ensures |t| == Min(|code|, 15) + 3
  {
    Substr(code, 0, 1) + " " + Substr(code, 1, 4) + " " + Substr(code, 5, 5) + " " + Substr(code, 10, 5)
  }

  /** The three separators are spaces and character `i` of the code sits at `Slot(i)`. */
  lemma PrintableLayout(code: string)
    ensures forall g :: 1 <= g <= 3 ==> Printable(code)[Separator(|code|, g)] == ' '
    ensures forall i :: 0 <= i < Min(|code|, 15) ==> Printable(code)[Slot(i)] == code[i]
  {
    var g1 := Substr(code, 0, 1);
    var g2 := Substr(code, 1, 4);
    var g3 := Substr(code, 5, 5);
    var g4 := Substr(code, 10, 5);
    var t := Printable(code);
    assert t == g1 + " " + g2 + " " + g3 + " " + g4;
    forall i | 0 <= i < Min(|code|, 15)
      ensures t[Slot(i)] == code[i]
    {
      if i == 0 {
      } else if i < 5 {
        assert t[Slot(i)] == g2[i - 1];
      } else if i < 10 {
        assert t[Slot(i)] == g3[i - 5];
      } else {
        assert t[Slot(i)] == g4[i - 10];
      }
    }
  }

  /** `s` without its character at index `i`. */
  function DeleteAt(s: string, i: nat): (r: string)
    requires i < |s|
    ensures |r| == |s| - 1
  {
    s[..i] + s[i + 1..]
  }

  /** Where index `j` of a string came from before index `p` was deleted. */
  function Skip(j: nat, p: nat): nat {
    if j < p then j else j + 1
  }

  /** Characters before the deleted index keep their place; later ones move down by one. */
  lemma DeleteAtIndex(s: string, p: nat, j: nat)
    requires p < |s| && j < |s| - 1
    ensures DeleteAt(s, p)[j] == s[Skip(j, p)]
  {
  }

  /** Deleting the three inserted spaces gives back the first 15 characters of the code. */
  lemma PrintableUngroups(code: string)
    ensures var t := Printable(code);
      var n := |code|;
      DeleteAt(DeleteAt(DeleteAt(t, Separator(n, 3)), Separator(n, 2)), Separator(n, 1))
        == code[..Min(n, 15)]
  {
    var t := Printable(code);
    var n := |code|;
    var p1, p2, p3 := Separator(n, 1), Separator(n, 2), Separator(n, 3);
    PrintableLayout(code);
    var u1 := DeleteAt(t, p3);
    var u2 := DeleteAt(u1, p2);
    var u := DeleteAt(u2, p1);
    forall i | 0 <= i < Min(n, 15)
      ensures u[i] == code[i]
    {
      DeleteAtIndex(u2, p1, i);
      DeleteAtIndex(u1, p2, Skip(i, p1));
      DeleteAtIndex(t, p3, Skip(Skip(i, p1), p2));
      SlotSkipsSeparators(n, i);
    }
    assert u == code[..Min(n, 15)];
  }

  /** Stepping over the three separators from index `i` of the ungrouped
      text lands on `Slot(i)`. */
  lemma SlotSkipsSeparators(n: nat, i: nat)
    requires i < Min(n, 15)
    ensures Skip(Skip(Skip(i, Separator(n, 1)), Separator(n, 2)), Separator(n, 3)) == Slot(i)
  {
  }

  /** For a 14-character library number the text is 17 characters, grouped 1, 4, 5, 4. */
  lemma PrintableFourteen(code: string)
    requires |code| == 14
    ensures Printable(code) == code[..1] + " " + code[1..5] + " " + code[5..10] + " " + code[10..]
  {
    var t := Printable(code);
    PrintableLayout(code);
    var e := code[..1] + " " + code[1..5] + " " + code[5..10] + " " + code[10..];
    assert |t| == 17 == |e|;
    forall i | 0 <= i < 17
      ensures t[i] == e[i]
    {
      if i == 0 {
        assert t[Slot(0)] == code[0];
      } else if 2 <= i < 6 {
        assert t[Slot(i - 1)] == code[i - 1];
      } else if 7 <= i < 12 {
        assert t[Slot(i - 2)] == code[i - 2];
      } else if 13 <= i {
        assert t[Slot(i - 3)] == code[i - 3];
      }
    }
  }

  /** The PHP object: `setData` appends to `binary` in place. */
  class Barcode {
    var code: string
    var binary: seq<int>
    var start: char
    var stop: char

    constructor()
      ensures Snapshot() == Initial
    {
      code := "";
      binary := [];
      start := DefaultStart;
      stop := DefaultStop;
    }

    function Snapshot(): State
      reads this
    {
      State(code, binary, start, stop)
    }

    /** `setData`: store the trimmed upper-cased data, then append the
        widths of start, untrimmed data and stop to the field. */
    method SetData(data: string)
      modifies this
      ensures Snapshot() == ApplySetData(old(Snapshot()), data)
    {
      var d2 := Upper(data);
      code := Trim(d2);
      binary := AppendEncoding(binary, Framed(start, d2, stop));
    }
  }
}
