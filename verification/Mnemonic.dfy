/**
 The mnemonic behind a private key: the key and a checksum byte, written as a string of
 bits, cut into 11-bit words, and back. BIP-39, section "Generating the mnemonic".

 The script works on binary strings, and so does this model: numbers are printed in base
 two and padded, the string is cut every 8 or 11 characters, and the pieces are parsed.

 Looking a word up can also find a property every object inherits, such as "constructor".
 What it finds there is no number; its text then goes into the string of bits.
 */
module Mnemonic {
  import opened Domain

  // ---------- Binary strings ----------

  function Pow2(n: nat): (r: nat)
    ensures r >= 1
  {
    if n == 0 then 1 else 2 * Pow2(n - 1)
  }

  predicate IsBits(s: string) {
    forall i :: 0 <= i < |s| ==> s[i] == '0' || s[i] == '1'
  }

  /** What `.` does not match in a regular expression. */
  predicate IsLineEnd(c: char) {
    c == '\n' || c == '\r' || c == '\U{2028}' || c == '\U{2029}'
  }

  predicate OneLine(s: string) {
    forall i :: 0 <= i < |s| ==> !IsLineEnd(s[i])
  }

  /** `dec.toString(2)` */
  function ToBinary(x: nat): (s: string)
    ensures IsBits(s) && |s| >= 1
  {
    var digit := if x % 2 == 1 then '1' else '0';
    if x < 2 then [digit] else ToBinary(x / 2) + [digit]
  }

  function Zeros(n: nat): (s: string)
    ensures IsBits(s) && |s| == n
    ensures forall i :: 0 <= i < n ==> s[i] == '0'
  {
    if n == 0 then "" else Zeros(n - 1) + "0"
  }

  /** Pad to `n` digits with leading zeroes; longer strings are left alone. */
  function Dec2BinFillN(x: nat, n: nat): (s: string)
    ensures IsBits(s)
  {
    Padded(ToBinary(x), n)
  }

  function Padded(str: string, n: nat): (s: string)
    ensures IsBits(str) ==> IsBits(s)
    ensures OneLine(str) ==> OneLine(s)
    ensures |s| == if |str| < n then n else |str|
  {
    if |str| < n then Zeros(n - |str|) + str else str
  }

  /** `parseInt(b, 2)` of a string of bits; `ParseInt` reads any string. */
  function ParseBinary(s: string): nat {
    if s == "" then 0 else 2 * ParseBinary(s[..|s| - 1]) + if s[|s| - 1] == '1' then 1 else 0
  }

  lemma {:induction false} ParseToBinary(x: nat, n: nat)
    requires n >= 1 && x < Pow2(n)
    ensures ParseBinary(ToBinary(x)) == x && |ToBinary(x)| <= n
    decreases n
  {
    if x >= 2 {
      ParseToBinary(x / 2, n - 1);
    }
  }

  lemma {:induction false} ParsePadded(k: nat, s: string)
    ensures ParseBinary(Zeros(k) + s) == ParseBinary(s)
    decreases k + |s|
  {
    var all := Zeros(k) + s;
    if s == "" {
      if k > 0 {
        assert all[..|all| - 1] == Zeros(k - 1) + "";
        ParsePadded(k - 1, "");
      }
    } else {
      assert all[..|all| - 1] == Zeros(k) + s[..|s| - 1];
      ParsePadded(k, s[..|s| - 1]);
    }
  }

  lemma PaddedParses(str: string, n: nat)
    requires IsBits(str)
    ensures ParseBinary(Padded(str, n)) == ParseBinary(str)
  {
    if |str| < n {
      ParsePadded(n - |str|, str);
    }
  }

  /** Printing to `n` digits is undone by parsing. */
  lemma FillThenParse(x: nat, n: nat)
    requires n >= 1 && x < Pow2(n)
    ensures |Dec2BinFillN(x, n)| == n && ParseBinary(Dec2BinFillN(x, n)) == x
  {
    ParseToBinary(x, n);
    PaddedParses(ToBinary(x), n);
  }

  lemma {:induction false} ParseBound(s: string)
    ensures ParseBinary(s) < Pow2(|s|)
  {
    if s != "" {
      ParseBound(s[..|s| - 1]);
    }
  }

  lemma {:induction false} ParseInjective(s: string, t: string)
    requires IsBits(s) && IsBits(t) && |s| == |t| && ParseBinary(s) == ParseBinary(t)
    ensures s == t
  {
    if s != "" {
      var a, b := s[..|s| - 1], t[..|t| - 1];
      ParseInjective(a, b);
      assert s == a + [s[|s| - 1]] && t == b + [t[|t| - 1]];
    }
  }

  /** Parsing `n` digits is undone by printing to `n` digits. */
  lemma ParseThenFill(s: string)
    requires IsBits(s) && |s| >= 1
    ensures Dec2BinFillN(ParseBinary(s), |s|) == s
  {
    ParseBound(s);
    FillThenParse(ParseBinary(s), |s|);
    ParseInjective(Dec2BinFillN(ParseBinary(s), |s|), s);
  }

  // ---------- Joining and cutting ----------

  /** The numbers printed to `n` digits each and joined. */
  function Joined(xs: seq<nat>, n: nat): (s: string)
    ensures IsBits(s)
  {
    if xs == [] then "" else Dec2BinFillN(xs[0], n) + Joined(xs[1..], n)
  }

  /** How far `.{1,n}` reaches: `n` characters at most, and not past the end of a line. */
  function LineReach(s: string, n: nat): (k: nat)
    ensures k <= n && k <= |s|
    ensures OneLine(s[..k])
    ensures k < n && k < |s| ==> IsLineEnd(s[k])
  {
    if n == 0 || s == "" || IsLineEnd(s[0]) then 0
    else
      var k := LineReach(s[1..], n - 1);
      assert s[..k + 1] == [s[0]] + s[1..][..k];
      k + 1
  }

  /** `match(/.{1,n}/g)`: pieces of `n` characters, the last one of a line possibly shorter. */
  function Pieces(s: string, n: nat): seq<string>
    requires n >= 1
    decreases |s|
  {
    if s == "" then []
    else
      var k := LineReach(s, n);
      if k == 0 then Pieces(s[1..], n) else [s[..k]] + Pieces(s[k..], n)
  }

  /** The first cut of a string that is all one line. */
  lemma PiecesOfLine(s: string, n: nat)
    requires n >= 1 && s != "" && OneLine(s)
    ensures |s| <= n ==> Pieces(s, n) == [s]
    ensures |s| > n ==> Pieces(s, n) == [s[..n]] + Pieces(s[n..], n)
  {
    var k := LineReach(s, n);
    if |s| <= n {
      assert k == |s|;
      assert s[..k] == s && s[k..] == "";
    } else {
      assert k == n;
    }
  }

  function ParseAll(pieces: seq<string>): seq<nat> {
    if pieces == [] then [] else [ParseBinary(pieces[0])] + ParseAll(pieces[1..])
  }

  /** Print to `m` digits, join, cut every `n` characters, parse. */
  function Repacked(xs: seq<nat>, m: nat, n: nat): seq<nat>
    requires n >= 1
  {
    ParseAll(Pieces(Joined(xs, m), n))
  }

  ghost predicate Below(xs: seq<nat>, n: nat) {
    forall i :: 0 <= i < |xs| ==> xs[i] < Pow2(n)
  }

  lemma {:induction false} JoinedLength(xs: seq<nat>, n: nat)
    requires n >= 1 && Below(xs, n)
    ensures |Joined(xs, n)| == n * |xs|
  {
    if xs != [] {
      FillThenParse(xs[0], n);
      JoinedLength(xs[1..], n);
      OneMore(n, |xs| - 1);
    }
  }

  lemma OneMore(n: nat, k: nat)
    ensures n * (k + 1) == n + n * k
  {
  }

  /** A first piece of full length is cut off as it is. */
  lemma CutFirst(first: string, rest: string, n: nat)
    requires n >= 1 && |first| == n && OneLine(first) && OneLine(rest)
    ensures Pieces(first + rest, n) == [first] + Pieces(rest, n)
  {
    var s := first + rest;
    PiecesOfLine(s, n);
    if rest == "" {
      assert s == first;
    } else {
      assert s[..n] == first && s[n..] == rest;
    }
  }

  /** Cutting what was joined gives the printed numbers back; parsing gives the numbers back. */
  lemma {:induction false} CutJoined(xs: seq<nat>, n: nat)
    requires n >= 1 && Below(xs, n)
    ensures ParseAll(Pieces(Joined(xs, n), n)) == xs
  {
    if xs != [] {
      var first, rest := Dec2BinFillN(xs[0], n), Joined(xs[1..], n);
      FillThenParse(xs[0], n);
      CutFirst(first, rest, n);
      CutJoined(xs[1..], n);
      assert xs == [xs[0]] + xs[1..];
    }
  }

  /** Joining what was cut from a string of whole pieces gives the string back. */
  lemma {:induction false} JoinCut(s: string, n: nat)
    requires n >= 1 && IsBits(s) && |s| % n == 0
    ensures var words := ParseAll(Pieces(s, n)); Joined(words, n) == s && Below(words, n)
    decreases |s|
  {
    if s != "" {
      WholePieces(|s|, n);
      var first, rest := s[..n], s[n..];
      assert s == first + rest;
      CutFirst(first, rest, n);
      JoinCut(rest, n);
      JoinNext(first, Pieces(rest, n), n);
    }
  }

  lemma JoinNext(first: string, pieces: seq<string>, n: nat)
    requires n >= 1 && |first| == n && IsBits(first)
    ensures Joined(ParseAll([first] + pieces), n) == first + Joined(ParseAll(pieces), n)
    ensures Below(ParseAll(pieces), n) ==> Below(ParseAll([first] + pieces), n)
  {
    ParseBound(first);
    ParseThenFill(first);
    assert ([first] + pieces)[1..] == pieces;
    var words := [ParseBinary(first)] + ParseAll(pieces);
    assert words[1..] == ParseAll(pieces);
  }

  lemma WholePieces(len: nat, n: nat)
    requires n >= 1 && len >= 1 && len % n == 0
    ensures len >= n && (len - n) % n == 0
  {
    BelowDivisor(len, n);
    var q := len / n;
    assert len == n * q;
    OneMore(n, q - 1);
    RemainderOfMultiple(q - 1, n);
  }

  lemma BelowDivisor(len: nat, n: nat)
    requires n >= 1
    ensures len < n ==> len % n == len
  {
  }

  lemma MultipleOutside(d: int, n: nat)
    ensures d >= 1 ==> d * n >= n
    ensures d <= -1 ==> d * n <= -(n as int)
  {
  }

  lemma RemainderOfMultiple(q: nat, n: nat)
    requires n >= 1
    ensures (n * q) % n == 0
  {
    var x := n * q;
    var d := q - x / n;
    assert x == (x / n) * n + x % n;
    assert d * n == x % n;
    MultipleOutside(d, n);
  }

  /**
   Repacking `m`-bit numbers into `n`-bit words and back gives the numbers back exactly when
   the bits fill whole words.
   */
  lemma RepackRoundTripIff(xs: seq<nat>, m: nat, n: nat)
    requires m >= 1 && n >= 1 && Below(xs, m)
    ensures Repacked(Repacked(xs, m, n), n, m) == xs <==> (m * |xs|) % n == 0
    ensures (m * |xs|) % n == 0 ==> Below(Repacked(xs, m, n), n) && n * |Repacked(xs, m, n)| == m * |xs|
  {
    JoinedLength(xs, m);
    if (m * |xs|) % n == 0 {
      JoinCut(Joined(xs, m), n);
      JoinedLength(Repacked(xs, m, n), n);
      CutJoined(xs, m);
    } else {
      RepackGrows(xs, m, n);
    }
  }

  // ---------- Partial words ----------

  lemma {:induction false} PiecesFit(s: string, n: nat)
    requires n >= 1 && OneLine(s)
    ensures Below(ParseAll(Pieces(s, n)), n)
    ensures n * |ParseAll(Pieces(s, n))| >= |s|
    decreases |s|
  {
    if s != "" {
      PiecesOfLine(s, n);
      if |s| <= n {
        ParseBound(s);
        Pow2Monotone(|s|, n);
        assert ParseAll([s]) == [ParseBinary(s)];
      } else {
        ParseBound(s[..n]);
        PiecesFit(s[n..], n);
        OneMore(n, |ParseAll(Pieces(s[n..], n))|);
      }
    }
  }

  lemma {:induction false} Pow2Monotone(a: nat, b: nat)
    requires a <= b
    ensures Pow2(a) <= Pow2(b)
    decreases b - a
  {
    if a < b {
      Pow2Monotone(a, b - 1);
    }
  }

  /** A partial last word is padded on the way back, which adds bits and hence a number. */
  lemma RepackGrows(xs: seq<nat>, m: nat, n: nat)
    requires m >= 1 && n >= 1 && Below(xs, m) && (m * |xs|) % n != 0
    ensures |Repacked(Repacked(xs, m, n), n, m)| > |xs|
  {
    var words := Repacked(xs, m, n);
    JoinedLength(xs, m);
    PiecesFit(Joined(xs, m), n);
    JoinedLength(words, n);
    if n * |words| == m * |xs| {
      RemainderOfMultiple(|words|, n);
    }
    PiecesFit(Joined(words, n), m);
    var back := |Repacked(words, n, m)|;
    assert m * back >= n * |words| > m * |xs|;
    if back <= |xs| {
      Scaled(m, back, |xs|);
    }
  }

  lemma Scaled(m: nat, a: nat, b: nat)
    requires a <= b
    ensures m * a <= m * b
  {
  }

  // ---------- Reading any text ----------

  /** What `parseInt` skips at the start of a string. */
  predicate IsSpace(c: char) {
    || '\t' <= c <= '\r' || c == ' ' || c == '\U{00A0}' || c == '\U{1680}' || '\U{2000}' <= c <= '\U{200A}'
    || c == '\U{2028}' || c == '\U{2029}' || c == '\U{202F}' || c == '\U{205F}' || c == '\U{3000}' || c == '\U{FEFF}'
  }

  function SkipSpace(s: string): string {
    if s != "" && IsSpace(s[0]) then SkipSpace(s[1..]) else s
  }

  function LeadingBits(s: string): (r: string)
    ensures IsBits(r)
  {
    if s != "" && (s[0] == '0' || s[0] == '1') then [s[0]] + LeadingBits(s[1..]) else ""
  }

  /** `parseInt(b, 2)`: white space, a sign, and as many digits as there are; `NaN` without any. */
  function ParseInt(s: string): Option<int> {
    var t := SkipSpace(s);
    var signed := t != "" && (t[0] == '-' || t[0] == '+');
    var digits := LeadingBits(if signed then t[1..] else t);
    if digits == "" then None
    else Some(if signed && t[0] == '-' then -(ParseBinary(digits) as int) else ParseBinary(digits))
  }

  /** An element of a `Uint8Array`: modulo 256, and zero for `NaN`. */
  function ToByte(x: Option<int>): (b: nat)
    ensures b < Pow2(8)
  {
    assert Pow2(8) == 256;
    x.GetOr(0) % 256
  }

  function ReadBytes(pieces: seq<string>): (r: seq<nat>)
    ensures |r| == |pieces|
    ensures forall i :: 0 <= i < |r| ==> r[i] == ToByte(ParseInt(pieces[i]))
  {
    if pieces == [] then [] else [ToByte(ParseInt(pieces[0]))] + ReadBytes(pieces[1..])
  }

  lemma {:induction false} AllLeading(s: string)
    requires IsBits(s)
    ensures LeadingBits(s) == s
  {
    if s != "" {
      AllLeading(s[1..]);
      assert s == [s[0]] + s[1..];
    }
  }

  lemma BitIsNoSpace(c: char)
    requires c == '0' || c == '1'
    ensures !IsSpace(c) && c != '-' && c != '+'
  {}

  lemma ParseIntOfBits(s: string)
    requires IsBits(s) && s != ""
    ensures ParseInt(s) == Some(ParseBinary(s))
  {
    BitIsNoSpace(s[0]);
    AllLeading(s);
    assert SkipSpace(s) == s;
  }

  lemma EightBits(s: string)
    requires |s| <= 8
    ensures ParseBinary(s) < 256
  {
    ParseBound(s);
    Pow2Monotone(|s|, 8);
    assert Pow2(8) == 256;
  }

  lemma ByteStays(x: nat)
    requires x < 256
    ensures ToByte(Some(x)) == x
  {}

  /** On at most eight bits the general reading is the plain one. */
  lemma ByteOfBits(s: string)
    requires IsBits(s) && 1 <= |s| <= 8
    ensures ToByte(ParseInt(s)) == ParseBinary(s)
  {
    ParseIntOfBits(s);
    EightBits(s);
    ByteStays(ParseBinary(s));
  }

  lemma {:induction false} BytesOfBits(s: string)
    requires IsBits(s)
    ensures ReadBytes(Pieces(s, 8)) == ParseAll(Pieces(s, 8))
    decreases |s|
  {
    if s != "" {
      PiecesOfLine(s, 8);
      if |s| <= 8 {
        ByteOfBits(s);
        assert ReadBytes([s]) == [ToByte(ParseInt(s))] && ParseAll([s]) == [ParseBinary(s)];
      } else {
        ByteOfBits(s[..8]);
        BytesOfBits(s[8..]);
      }
    }
  }

  // ---------- The two array functions ----------

  /** What looking a word up finds: the place of a listed word, or an inherited property, which prints as `text`. */
  datatype WordValue = Listed(place: nat) | Inherited(text: string)

  function Digits(v: WordValue): string {
    match v
    case Listed(place) => Dec2BinFillN(place, 11)
    case Inherited(text) => Padded(text, 11)
  }

  function Printed(values: seq<WordValue>): string {
    if values == [] then "" else Digits(values[0]) + Printed(values[1..])
  }

  function ListedAll(places: seq<nat>): (r: seq<WordValue>)
    ensures |r| == |places|
    ensures forall i :: 0 <= i < |r| ==> r[i] == Listed(places[i])
  {
    seq(|places|, i requires 0 <= i < |places| => Listed(places[i]))
  }

  lemma {:induction false} PrintedPlaces(places: seq<nat>)
    ensures Printed(ListedAll(places)) == Joined(places, 11)
  {
    if places != [] {
      PrintedPlaces(places[1..]);
      assert ListedAll(places)[1..] == ListedAll(places[1..]);
    }
  }

  /** Values to bytes; nothing when there is no piece to read, where the script throws. */
  function BytesOf(values: seq<WordValue>): Option<seq<nat>> {
    var pieces := Pieces(Printed(values), 8);
    if pieces == [] then None else Some(ReadBytes(pieces))
  }

  /** Listed words alone are repacked. */
  lemma BytesOfPlaces(places: seq<nat>)
    requires places != [] && Below(places, 11)
    ensures BytesOf(ListedAll(places)) == Some(Repacked(places, 11, 8))
  {
    var s := Joined(places, 11);
    PrintedPlaces(places);
    JoinedLength(places, 11);
    PiecesOfLine(s, 8);
    BytesOfBits(s);
  }

  /** `toUint11Array`; on an empty input `match` returns null and the script throws. */
  method ToUint11Array(input: seq<nat>) returns (r: Option<seq<nat>>)
    ensures r == if Joined(input, 8) == "" then None else Some(Repacked(input, 8, 11))
  {
    var inpStr := "";
    for i := 0 to |input|
      invariant inpStr + Joined(input[i..], 8) == Joined(input, 8)
    {
      assert input[i..][0] == input[i] && input[i..][1..] == input[i + 1..];
      inpStr := inpStr + Dec2BinFillN(input[i], 8);
    }
    assert inpStr == Joined(input, 8);
    if inpStr == "" {
      return None;
    }
    var words := ParsePieces(Pieces(inpStr, 11));
    return Some(words);
  }

  /** `pieces.map(b => parseInt(b, 2))` */
  method ParsePieces(pieces: seq<string>) returns (r: seq<nat>)
    ensures r == ParseAll(pieces)
  {
    r := [];
    for i := 0 to |pieces|
      invariant r + ParseAll(pieces[i..]) == ParseAll(pieces)
    {
      assert pieces[i..][0] == pieces[i] && pieces[i..][1..] == pieces[i + 1..];
      r := r + [ParseBinary(pieces[i])];
    }
  }

  /** `fromUint11Array` */
  method FromUint11Array(input: seq<WordValue>) returns (r: Option<seq<nat>>)
    ensures r == BytesOf(input)
  {
    var inpStr := "";
    for i := 0 to |input|
      invariant inpStr + Printed(input[i..]) == Printed(input)
    {
      assert input[i..][0] == input[i] && input[i..][1..] == input[i + 1..];
      inpStr := inpStr + Digits(input[i]);
    }
    assert inpStr == Printed(input);
    var pieces := Pieces(inpStr, 8);
    if pieces == [] {
      return None;
    }
    var bytes := FillBytes(pieces);
    return Some(bytes);
  }

  /** `new Uint8Array(pieces.map(b => parseInt(b, 2)))` */
  method FillBytes(pieces: seq<string>) returns (r: seq<nat>)
    ensures r == ReadBytes(pieces)
  {
    hide ToByte, ParseInt;
    r := [];
    for i := 0 to |pieces|
      invariant |r| == i
      invariant forall j :: 0 <= j < i ==> r[j] == ToByte(ParseInt(pieces[j]))
    {
      r := r + [ToByte(ParseInt(pieces[i]))];
    }
  }

  lemma MultiplesOf11(k: nat)
    ensures (8 * k) % 11 == 0 <==> k % 11 == 0
  {
    var a, b := k / 11, k % 11;
    assert 8 * k == 11 * (8 * a) + 8 * b;
  }

  lemma MultiplesOf8(k: nat)
    ensures (11 * k) % 8 == 0 <==> k % 8 == 0
  {
    var a, b := k / 8, k % 8;
    assert 11 * k == 8 * (11 * a) + 11 * b;
  }

  /** Bytes to words and back: exact on multiples of 11 bytes, and on nothing else. */
  lemma BytesRoundTripIff(bytes: seq<nat>)
    requires Below(bytes, 8)
    ensures Repacked(Repacked(bytes, 8, 11), 11, 8) == bytes <==> |bytes| % 11 == 0
    ensures |bytes| % 11 == 0 ==> Below(Repacked(bytes, 8, 11), 11) && 11 * |Repacked(bytes, 8, 11)| == 8 * |bytes|
  {
    MultiplesOf11(|bytes|);
    RepackRoundTripIff(bytes, 8, 11);
  }

  /** Words to bytes and back: exact on multiples of 8 words, and on nothing else. */
  lemma WordsRoundTripIff(words: seq<nat>)
    requires Below(words, 11)
    ensures Repacked(Repacked(words, 11, 8), 8, 11) == words <==> |words| % 8 == 0
    ensures |words| % 8 == 0 ==> Below(Repacked(words, 11, 8), 8) && 8 * |Repacked(words, 11, 8)| == 11 * |words|
  {
    MultiplesOf8(|words|);
    RepackRoundTripIff(words, 11, 8);
  }

  // ---------- Keys and mnemonics ----------

  /** The word list: 2048 different words; a word's value is its place in the list. */
  ghost predicate IsWordList(words: seq<string>) {
    && |words| == 2048
    && forall i, j :: 0 <= i < j < |words| ==> words[i] != words[j]
  }

  predicate KnownWord(words: seq<string>, w: string) {
    exists i :: 0 <= i < |words| && words[i] == w
  }

  function Place(words: seq<string>, w: string): (i: nat)
    requires KnownWord(words, w)
    ensures i < |words| && words[i] == w
  {
    if words[0] == w then 0 else 1 + Place(words[1..], w)
  }

  lemma PlaceOf(words: seq<string>, i: nat)
    requires IsWordList(words) && i < |words|
    ensures KnownWord(words, words[i]) && Place(words, words[i]) == i
  {
  }

  datatype MnemonicError = NotEnoughWords | NotAWord(word: string) | NothingToRead | ChecksumFailure

  /** The 33 bytes behind a mnemonic: the key and the first byte of its hash. */
  function Seed(key: seq<nat>, hash: seq<nat> -> nat): seq<nat> {
    key + [hash(key)]
  }

  ghost predicate IsHash(hash: seq<nat> -> nat) {
    forall k :: hash(k) < Pow2(8)
  }

  ghost predicate IsKey(key: seq<nat>) {
    |key| == 32 && Below(key, 8)
  }

  /** The 24 word places of a key. */
  lemma SeedWords(key: seq<nat>, hash: seq<nat> -> nat)
    requires IsKey(key) && IsHash(hash)
    ensures var places := Repacked(Seed(key, hash), 8, 11);
      && |places| == 24 && (forall i :: 0 <= i < |places| ==> places[i] < 2048)
      && Repacked(places, 11, 8) == Seed(key, hash)
  {
    BytesRoundTripIff(Seed(key, hash));
    assert Pow2(11) == 2048;
  }

  /** `privateKeyToMnemonic` */
  method PrivateKeyToMnemonic(words: seq<string>, hash: seq<nat> -> nat, key: seq<nat>) returns (mnemonic: seq<string>)
    requires IsWordList(words) && IsHash(hash) && IsKey(key)
    ensures var places := Repacked(Seed(key, hash), 8, 11);
      && |mnemonic| == |places| == 24
      && forall i :: 0 <= i < 24 ==> places[i] < 2048 && mnemonic[i] == words[places[i]]
  {
    SeedWords(key, hash);
    JoinedLength(Seed(key, hash), 8);
    var uint11 := ToUint11Array(Seed(key, hash));
    mnemonic := [];
    for i := 0 to |uint11.value|
      invariant |mnemonic| == i
      invariant forall j :: 0 <= j < i ==> mnemonic[j] == words[uint11.value[j]]
    {
      mnemonic := mnemonic + [words[uint11.value[i]]];
    }
  }

  /**
   `wordlist[w]` if the script takes it for a word: a listed word that is not the first, whose
   value zero it takes for none, or a name the list object inherits, whatever it stands for.
   */
  function ValueOf(words: seq<string>, inherited: map<string, string>, w: string): Option<WordValue> {
    if KnownWord(words, w) then if Place(words, w) != 0 then Some(Listed(Place(words, w))) else None
    else if w in inherited then Some(Inherited(inherited[w]))
    else None
  }

  /** The values of the words, or the first one refused. */
  function ValuesOf(words: seq<string>, inherited: map<string, string>, mnemonic: seq<string>)
    : Result<seq<WordValue>, MnemonicError>
  {
    if mnemonic == [] then Ok([])
    else
      var init, w := mnemonic[..|mnemonic| - 1], mnemonic[|mnemonic| - 1];
      var values :- ValuesOf(words, inherited, init);
      match ValueOf(words, inherited, w)
      case Some(v) => Ok(values + [v])
      case None => Err(NotAWord(w))
  }

  /** The key among the bytes, if the checksum byte after it is there and right. */
  function Checked(bytes: seq<nat>, hash: seq<nat> -> nat): Result<seq<nat>, MnemonicError> {
    var key := bytes[..if |bytes| < 32 then |bytes| else 32];
    if |bytes| > 32 && bytes[32] == hash(key) then Ok(key) else Err(ChecksumFailure)
  }

  function KeyOf(words: seq<string>, inherited: map<string, string>, hash: seq<nat> -> nat, mnemonic: seq<string>)
    : Result<seq<nat>, MnemonicError>
  {
    if |mnemonic| != 24 then Err(NotEnoughWords)
    else
      var values :- ValuesOf(words, inherited, mnemonic);
      match BytesOf(values)
      case None => Err(NothingToRead)
      case Some(bytes) => Checked(bytes, hash)
  }

  /** `mnemonicToPrivateKey` */
  method MnemonicToPrivateKey(words: seq<string>, inherited: map<string, string>, hash: seq<nat> -> nat,
                              mnemonic: seq<string>)
    returns (r: Result<seq<nat>, MnemonicError>)
    requires IsWordList(words)
    ensures r == KeyOf(words, inherited, hash, mnemonic)
  {
    if |mnemonic| != 24 {
      return Err(NotEnoughWords);
    }
    var mnemBytes := [];
    for i := 0 to |mnemonic|
      invariant ValuesOf(words, inherited, mnemonic[..i]) == Ok(mnemBytes)
    {
      assert mnemonic[..i + 1][..i] == mnemonic[..i];
      var byte := ValueOf(words, inherited, mnemonic[i]);
      if byte.Some? {
        mnemBytes := mnemBytes + [byte.value];
      } else {
        RefusedEarly(words, inherited, mnemonic, i + 1);
        return Err(NotAWord(mnemonic[i]));
      }
    }
    assert mnemonic[..24] == mnemonic;
    var bytes := FromUint11Array(mnemBytes);
    if bytes.None? {
      return Err(NothingToRead);
    }
    var keyBytes := bytes.value[..if |bytes.value| < 32 then |bytes.value| else 32];
    if |bytes.value| > 32 && hash(keyBytes) == bytes.value[32] {
      return Ok(keyBytes);
    }
    return Err(ChecksumFailure);
  }

  lemma {:induction false} RefusedEarly(words: seq<string>, inherited: map<string, string>, mnemonic: seq<string>,
                                        n: nat)
    requires n <= |mnemonic| && ValuesOf(words, inherited, mnemonic[..n]).Err?
    ensures ValuesOf(words, inherited, mnemonic) == ValuesOf(words, inherited, mnemonic[..n])
  {
    if n == |mnemonic| {
      assert mnemonic[..n] == mnemonic;
    } else {
      assert mnemonic[..|mnemonic| - 1][..n] == mnemonic[..n];
      RefusedEarly(words, inherited, mnemonic[..|mnemonic| - 1], n);
    }
  }

  /** Accepted words have their values, one each. */
  lemma {:induction false} ValuesAre(words: seq<string>, inherited: map<string, string>, mnemonic: seq<string>)
    requires ValuesOf(words, inherited, mnemonic).Ok?
    ensures var values := ValuesOf(words, inherited, mnemonic).value;
      && |values| == |mnemonic|
      && forall i :: 0 <= i < |values| ==> ValueOf(words, inherited, mnemonic[i]) == Some(values[i])
  {
    if mnemonic != [] {
      ValuesAre(words, inherited, mnemonic[..|mnemonic| - 1]);
    }
  }

  /** The places of words accepted from the list. */
  function PlacesOf(values: seq<WordValue>): (r: seq<nat>)
    ensures |r| == |values|
  {
    seq(|values|, i requires 0 <= i < |values| => if values[i].Listed? then values[i].place else 0)
  }

  lemma ListedValues(words: seq<string>, inherited: map<string, string>, mnemonic: seq<string>)
    requires IsWordList(words) && ValuesOf(words, inherited, mnemonic).Ok?
    requires forall i :: 0 <= i < |mnemonic| ==> KnownWord(words, mnemonic[i])
    ensures var values := ValuesOf(words, inherited, mnemonic).value;
      var places := PlacesOf(values);
      && values == ListedAll(places) && |places| == |mnemonic| && Below(places, 11)
      && forall i :: 0 <= i < |places| ==> places[i] < |words| && words[places[i]] == mnemonic[i]
  {
    var values := ValuesOf(words, inherited, mnemonic).value;
    ValuesAre(words, inherited, mnemonic);
    assert Pow2(11) == 2048;
    forall i | 0 <= i < |mnemonic|
      ensures values[i] == Listed(PlacesOf(values)[i])
      ensures PlacesOf(values)[i] < |words| && words[PlacesOf(values)[i]] == mnemonic[i]
    {
      assert ValueOf(words, inherited, mnemonic[i]) == Some(values[i]);
    }
  }

  lemma ValueAt(words: seq<string>, inherited: map<string, string>, i: nat)
    requires IsWordList(words) && i < |words|
    ensures ValueOf(words, inherited, words[i]) == if i != 0 then Some(Listed(i)) else None
  {
    PlaceOf(words, i);
  }

  lemma ListedAppend(places: seq<nat>, place: nat)
    ensures ListedAll(places + [place]) == ListedAll(places) + [Listed(place)]
    ensures 0 in places + [place] <==> 0 in places || place == 0
  {
    assert (places + [place])[|places|] == place;
  }

  lemma {:induction false} ValuesOfWordsAt(words: seq<string>, inherited: map<string, string>, places: seq<nat>,
                                           mnemonic: seq<string>)
    requires IsWordList(words) && |places| == |mnemonic|
    requires forall i :: 0 <= i < |places| ==> places[i] < |words| && mnemonic[i] == words[places[i]]
    ensures 0 !in places ==> ValuesOf(words, inherited, mnemonic) == Ok(ListedAll(places))
    ensures 0 in places ==> ValuesOf(words, inherited, mnemonic) == Err(NotAWord(words[0]))
  {
    hide IsWordList, ValueOf, ListedAll;
    if mnemonic == [] {
      assert ListedAll(places) == [];
    } else {
      var n := |mnemonic| - 1;
      ValuesOfWordsAt(words, inherited, places[..n], mnemonic[..n]);
      ValueAt(words, inherited, places[n]);
      assert places == places[..n] + [places[n]];
      ListedAppend(places[..n], places[n]);
    }
  }

  /** The mnemonic the script writes for a key. */
  ghost predicate IsMnemonicOf(words: seq<string>, hash: seq<nat> -> nat, key: seq<nat>, mnemonic: seq<string>) {
    var places := Repacked(Seed(key, hash), 8, 11);
    && |mnemonic| == |places| == 24
    && forall i :: 0 <= i < 24 ==> places[i] < |words| && mnemonic[i] == words[places[i]]
  }

  /**
   A key is recovered from its mnemonic exactly when none of its 24 words is the first of
   the list: the script reads the value zero as "no such word". Otherwise that word is refused.
   */
  lemma KeyRecoveredIff(words: seq<string>, inherited: map<string, string>, hash: seq<nat> -> nat, key: seq<nat>,
                        mnemonic: seq<string>)
    requires IsWordList(words) && IsHash(hash) && IsKey(key) && IsMnemonicOf(words, hash, key, mnemonic)
    ensures KeyOf(words, inherited, hash, mnemonic) == Ok(key) <==> 0 !in Repacked(Seed(key, hash), 8, 11)
    ensures 0 in Repacked(Seed(key, hash), 8, 11) ==>
      KeyOf(words, inherited, hash, mnemonic) == Err(NotAWord(words[0]))
  {
    hide Repacked, Checked, BytesOf;
    var places := Repacked(Seed(key, hash), 8, 11);
    SeedWords(key, hash);
    ValuesOfWordsAt(words, inherited, places, mnemonic);
    PlacesFit(places);
    BytesOfPlaces(places);
    SeedChecks(key, hash);
  }

  lemma PlacesFit(places: seq<nat>)
    requires forall i :: 0 <= i < |places| ==> places[i] < 2048
    ensures Below(places, 11)
  {
    assert Pow2(11) == 2048;
  }

  lemma SeedChecks(key: seq<nat>, hash: seq<nat> -> nat)
    requires |key| == 32
    ensures Checked(Seed(key, hash), hash) == Ok(key)
  {
    assert Seed(key, hash)[..32] == key;
  }

  // ---------- Keys that are not recovered ----------

  lemma JoinedStart(a: nat, b: nat, rest: seq<nat>)
    requires a < Pow2(8) && b < Pow2(8)
    ensures |Dec2BinFillN(a, 8)| == |Dec2BinFillN(b, 8)| == 8
    ensures Joined([a, b] + rest, 8) == Dec2BinFillN(a, 8) + Dec2BinFillN(b, 8) + Joined(rest, 8)
  {
    FillThenParse(a, 8);
    FillThenParse(b, 8);
    var xs := [a, b] + rest;
    assert xs[1..] == [b] + rest && xs[1..][1..] == rest;
    assert Joined(xs, 8) == Dec2BinFillN(a, 8) + (Dec2BinFillN(b, 8) + Joined(rest, 8));
  }

  /** Small numbers print with leading zeroes. */
  lemma PrintsZeros(x: nat, n: nat, k: nat)
    requires n >= 1 && x < Pow2(n)
    ensures var s := Dec2BinFillN(x, n + k); |s| == n + k && forall i :: 0 <= i < k ==> s[i] == '0'
  {
    ParseToBinary(x, n);
  }

  /** The first place of a key that starts with eleven zero bits. */
  lemma FirstPlaceZero(bytes: seq<nat>)
    requires |bytes| >= 2 && Below(bytes, 8) && bytes[0] == 0 && bytes[1] < 32
    ensures |Repacked(bytes, 8, 11)| > 0 && Repacked(bytes, 8, 11)[0] == 0
  {
    var s := Joined(bytes, 8);
    JoinedStart(bytes[0], bytes[1], bytes[2..]);
    assert bytes == [bytes[0], bytes[1]] + bytes[2..];
    PiecesOfLine(s, 11);
    assert Pow2(5) == 32;
    PrintsZeros(bytes[1], 5, 3);
    assert Dec2BinFillN(0, 8) == Zeros(7) + "0";
    assert s[..11] == Zeros(11) + "";
    ParsePadded(11, "");
  }

  /** Every key whose first eleven bits are zero is refused, whatever the hash. */
  lemma LowKeyRefused(words: seq<string>, inherited: map<string, string>, hash: seq<nat> -> nat, key: seq<nat>,
                      mnemonic: seq<string>)
    requires IsWordList(words) && IsHash(hash) && IsKey(key) && IsMnemonicOf(words, hash, key, mnemonic)
    requires key[0] == 0 && key[1] < 32
    ensures KeyOf(words, inherited, hash, mnemonic) == Err(NotAWord(words[0]))
  {
    SeedWords(key, hash);
    FirstPlaceZero(Seed(key, hash));
    assert Repacked(Seed(key, hash), 8, 11)[0] in Repacked(Seed(key, hash), 8, 11);
    KeyRecoveredIff(words, inherited, hash, key, mnemonic);
  }

  /** One such key: the bytes 0, 1, 2, up to 31. */
  lemma CountingKeyRefused(words: seq<string>, inherited: map<string, string>, hash: seq<nat> -> nat)
    requires IsWordList(words) && IsHash(hash)
    ensures var key: seq<nat> := seq(32, i => i);
      IsKey(key) && forall mnemonic :: IsMnemonicOf(words, hash, key, mnemonic) ==>
        KeyOf(words, inherited, hash, mnemonic) == Err(NotAWord(words[0]))
  {
    var key: seq<nat> := seq(32, i => i);
    assert Pow2(8) == 256;
    forall mnemonic | IsMnemonicOf(words, hash, key, mnemonic)
      ensures KeyOf(words, inherited, hash, mnemonic) == Err(NotAWord(words[0]))
    {
      LowKeyRefused(words, inherited, hash, key, mnemonic);
    }
  }

  // ---------- Mnemonics that are accepted ----------

  /**
   An accepted mnemonic is the one the script writes for the key it gives exactly when every
   word of it is in the list.
   */
  lemma AcceptedIsTheKeysIff(words: seq<string>, inherited: map<string, string>, hash: seq<nat> -> nat,
                             mnemonic: seq<string>)
    requires IsWordList(words) && KeyOf(words, inherited, hash, mnemonic).Ok?
    ensures var key := KeyOf(words, inherited, hash, mnemonic).value;
      IsKey(key) && IsMnemonicOf(words, hash, key, mnemonic)
      <==> forall i :: 0 <= i < |mnemonic| ==> KnownWord(words, mnemonic[i])
  {
    if forall i :: 0 <= i < |mnemonic| ==> KnownWord(words, mnemonic[i]) {
      ListedAccepted(words, inherited, hash, mnemonic);
    }
    var key := KeyOf(words, inherited, hash, mnemonic).value;
    if IsMnemonicOf(words, hash, key, mnemonic) {
      OwnWordsListed(words, hash, key, mnemonic);
    }
  }

  lemma OwnWordsListed(words: seq<string>, hash: seq<nat> -> nat, key: seq<nat>, mnemonic: seq<string>)
    requires IsMnemonicOf(words, hash, key, mnemonic)
    ensures forall i :: 0 <= i < |mnemonic| ==> KnownWord(words, mnemonic[i])
  {
    var places := Repacked(Seed(key, hash), 8, 11);
    forall i | 0 <= i < |mnemonic| ensures KnownWord(words, mnemonic[i]) {
      assert words[places[i]] == mnemonic[i];
    }
  }

  /** Bytes that pass the check, if there are 33, are the seed of the key. */
  lemma CheckedIsSeed(bytes: seq<nat>, hash: seq<nat> -> nat)
    requires |bytes| == 33 && Below(bytes, 8) && Checked(bytes, hash).Ok?
    ensures var key := Checked(bytes, hash).value; IsKey(key) && Seed(key, hash) == bytes
  {
    var key := bytes[..32];
    assert bytes == key + [bytes[32]];
  }

  /** For listed words everything is repacking and the check. */
  lemma ListedKey(words: seq<string>, inherited: map<string, string>, hash: seq<nat> -> nat, mnemonic: seq<string>)
    requires IsWordList(words) && KeyOf(words, inherited, hash, mnemonic).Ok?
    requires forall i :: 0 <= i < |mnemonic| ==> KnownWord(words, mnemonic[i])
    ensures var places := PlacesOf(ValuesOf(words, inherited, mnemonic).value);
      && |places| == 24 && Below(places, 11)
      && (forall i :: 0 <= i < 24 ==> places[i] < |words| && words[places[i]] == mnemonic[i])
      && KeyOf(words, inherited, hash, mnemonic) == Checked(Repacked(places, 11, 8), hash)
  {
    hide Repacked, Checked, BytesOf;
    ListedValues(words, inherited, mnemonic);
    BytesOfPlaces(PlacesOf(ValuesOf(words, inherited, mnemonic).value));
  }

  lemma ListedAccepted(words: seq<string>, inherited: map<string, string>, hash: seq<nat> -> nat, mnemonic: seq<string>)
    requires IsWordList(words) && KeyOf(words, inherited, hash, mnemonic).Ok?
    requires forall i :: 0 <= i < |mnemonic| ==> KnownWord(words, mnemonic[i])
    ensures var key := KeyOf(words, inherited, hash, mnemonic).value;
      IsKey(key) && IsMnemonicOf(words, hash, key, mnemonic)
  {
    hide Repacked;
    var places := PlacesOf(ValuesOf(words, inherited, mnemonic).value);
    ListedKey(words, inherited, hash, mnemonic);
    WordsRoundTripIff(places);
    CheckedIsSeed(Repacked(places, 11, 8), hash);
  }

  /** The eight-character pieces of a line, one by one. */
  lemma {:induction false} PieceAt(s: string, i: nat)
    requires OneLine(s) && 8 * i + 8 <= |s|
    ensures i < |Pieces(s, 8)| && Pieces(s, 8)[i] == s[8 * i..8 * i + 8]
    decreases i
  {
    PiecesOfLine(s, 8);
    if i > 0 {
      var rest, at := s[8..], 8 * (i - 1);
      PieceAt(rest, i - 1);
      assert rest[at..at + 8] == s[at + 8..at + 16];
    }
  }

  lemma {:induction false} PrintedAppend(values: seq<WordValue>, v: WordValue)
    ensures Printed(values + [v]) == Printed(values) + Digits(v)
  {
    hide Digits;
    var all := values + [v];
    if values == [] {
      assert all == [v] && all[1..] == [];
    } else {
      PrintedAppend(values[1..], v);
      assert all[1..] == values[1..] + [v];
      Regroup(Digits(values[0]), Printed(values[1..]), Digits(v));
    }
  }

  lemma Regroup(a: string, b: string, c: string)
    ensures a + (b + c) == a + b + c
  {}

  lemma SliceOfText(before: string, text: string)
    requires |before| == 253 && |text| >= 11
    ensures (before + text)[256..264] == text[3..11]
  {}

  /** The checksum byte of 23 listed words and one inherited text is read out of that text. */
  lemma ChecksumFromText(places: seq<nat>, text: string)
    requires |places| == 23 && Below(places, 11) && OneLine(text) && |text| >= 11
    ensures var bytes := BytesOf(ListedAll(places) + [Inherited(text)]);
      bytes.Some? && |bytes.value| > 32 && bytes.value[32] == ToByte(ParseInt(text[3..11]))
  {
    hide ToByte, ParseInt, Pieces, Printed, Joined;
    var values, before := ListedAll(places), Joined(places, 11);
    PrintedPlaces(places);
    PrintedAppend(values, Inherited(text));
    JoinedLength(places, 11);
    assert Printed(values + [Inherited(text)]) == before + text;
    SliceOfText(before, text);
    PieceAt(before + text, 32);
  }

  /** How the inherited "constructor" prints, cut where its characters fall into the checksum byte. */
  const OBJECT_TEXT := "fun" + "ction Ob" + "ject() { [native code] }"

  /**
   With "constructor" for the last word, after any 23 listed words but the first one, a
   mnemonic is accepted exactly when the hash of the 32 bytes before its checksum happens to
   start with a zero byte; and it is never the mnemonic of the key it gives.
   */
  lemma ConstructorAcceptedIff(words: seq<string>, inherited: map<string, string>, hash: seq<nat> -> nat,
                               places: seq<nat>, mnemonic: seq<string>)
    requires IsWordList(words) && !KnownWord(words, "constructor")
    requires "constructor" in inherited && inherited["constructor"] == OBJECT_TEXT
    requires |places| == 23 && |mnemonic| == 24 && mnemonic[23] == "constructor"
    requires forall i :: 0 <= i < 23 ==> 0 < places[i] < |words| && mnemonic[i] == words[places[i]]
    ensures var bytes := BytesOf(ListedAll(places) + [Inherited(OBJECT_TEXT)]);
      && bytes.Some? && |bytes.value| > 32
      && (KeyOf(words, inherited, hash, mnemonic) == Ok(bytes.value[..32]) <==> hash(bytes.value[..32]) == 0)
      && (KeyOf(words, inherited, hash, mnemonic).Ok? <==> hash(bytes.value[..32]) == 0)
      && !IsMnemonicOf(words, hash, bytes.value[..32], mnemonic)
  {
    assert Pow2(11) == 2048;
    assert mnemonic[..23] == mnemonic[..|mnemonic| - 1];
    ValuesOfWordsAt(words, inherited, places, mnemonic[..23]);
    ConstructorText();
    NotANumber();
    ChecksumFromText(places, OBJECT_TEXT);
    var bytes := BytesOf(ListedAll(places) + [Inherited(OBJECT_TEXT)]).value;
    if IsMnemonicOf(words, hash, bytes[..32], mnemonic) {
      OwnWordsListed(words, hash, bytes[..32], mnemonic);
    }
  }

  lemma OneLineParts()
    ensures OneLine("fun") && OneLine("ction Ob") && OneLine("ject() { [native code] }")
  {}

  lemma ConstructorText()
    ensures OneLine(OBJECT_TEXT) && |OBJECT_TEXT| >= 11 && OBJECT_TEXT[3..11] == "ction Ob"
  {
    OneLineParts();
    var a, b, c := "fun", "ction Ob", "ject() { [native code] }";
    assert OBJECT_TEXT == a + b + c;
  }

  lemma NotANumber()
    ensures ToByte(ParseInt("ction Ob")) == 0
  {
    var t := "ction Ob";
    assert t[0] == 'c' && !IsSpace('c');
    assert SkipSpace(t) == t && LeadingBits(t) == "";
  }

  /** At the level of the bits every key passes its checksum and is recovered, whatever the hash. */
  lemma EveryKeySurvivesRepacking(key: seq<nat>, hash: seq<nat> -> nat)
    requires IsKey(key) && IsHash(hash)
    ensures var bytes := Repacked(Repacked(Seed(key, hash), 8, 11), 11, 8);
      |bytes| == 33 && bytes[..32] == key && bytes[32] == hash(key)
  {
    SeedWords(key, hash);
    assert Seed(key, hash)[..32] == key;
  }
}
