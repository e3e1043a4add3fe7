/** Text for byte strings over an alphabet of 58 characters: the encoder, the decoder, and their round trips. */
module Base58Coder {
  import opened Radix

  datatype Option<T> = None | Some(value: T)

  // ---------------------------------------------------------------- the alphabet

  predicate IsSpace(c: char) {
    9 <= c as int <= 13 || c as int == 32
  }

  /** The six spaces of the C locale. */
  lemma SpaceCodes(c: char)
    ensures IsSpace(c) <==> c == ' ' || c == '\t' || c == '\n' || c == '\r' || c == '\U{0B}' || c == '\U{0C}'
  {
  }

  /** The first place of c in s from a place on; the length of s if there is none. */
  function StrChr(s: string, c: char, from: nat): (k: nat)
    requires from <= |s|
    ensures from <= k <= |s| && (k < |s| ==> s[k] == c)
    ensures forall j :: from <= j < k ==> s[j] != c
    decreases |s| - from
  {
    if from == |s| || s[from] == c then from else StrChr(s, c, from + 1)
  }

  /** 58 different characters, 1 first, none of them a space. */
  ghost predicate Alphabet(al: string) {
    && |al| == 58 && al[0] == '1'
    && (forall i, j :: 0 <= i < j < |al| ==> al[i] != al[j])
    && (forall i :: 0 <= i < |al| ==> !IsSpace(al[i]))
  }

  function Index(al: string, c: char): nat {
    StrChr(al, c, 0)
  }

  lemma IndexOfChar(al: string, k: nat)
    requires Alphabet(al) && k < 58
    ensures Index(al, al[k]) == k && !IsSpace(al[k])
  {
  }

  function Chars(al: string, d: seq<nat>): (s: string)
    requires forall i :: 0 <= i < |d| ==> d[i] < |al|
    ensures |s| == |d| && forall i :: 0 <= i < |d| ==> s[i] == al[d[i]]
  {
    seq(|d|, i requires 0 <= i < |d| => al[d[i]])
  }

  ghost function Indices(al: string, s: string): (d: seq<nat>)
    ensures |d| == |s| && forall i :: 0 <= i < |s| ==> d[i] == Index(al, s[i])
  {
    seq(|s|, i requires 0 <= i < |s| => Index(al, s[i]))
  }

  ghost predicate InAlphabet(al: string, s: string) {
    forall i :: 0 <= i < |s| ==> Index(al, s[i]) < 58
  }

  ghost predicate Known(al: string, s: string, from: nat, end: nat)
    requires from <= end <= |s|
  {
    forall k :: from <= k < end ==> Index(al, s[k]) < 58
  }

  // ---------------------------------------------------------------- trimming

  /** The number of entries at the front that equal x. */
  function Leading<T(==)>(s: seq<T>, x: T): (n: nat)
    ensures n <= |s| && (forall i :: 0 <= i < n ==> s[i] == x) && (n < |s| ==> s[n] != x)
  {
    if s != [] && s[0] == x then 1 + Leading(s[1..], x) else 0
  }

  lemma LeadingIs<T>(s: seq<T>, x: T, n: nat)
    requires n <= |s| && (forall i :: 0 <= i < n ==> s[i] == x) && (n < |s| ==> s[n] != x)
    ensures Leading(s, x) == n
  {
  }

  ghost function Front(s: string): (n: nat)
    ensures n <= |s| && (forall i :: 0 <= i < n ==> IsSpace(s[i])) && (n < |s| ==> !IsSpace(s[n]))
  {
    if s != [] && IsSpace(s[0]) then 1 + Front(s[1..]) else 0
  }

  ghost function Back(s: string): (n: nat)
    ensures n <= |s| && (forall i :: |s| - n <= i < |s| ==> IsSpace(s[i])) && (n < |s| ==> !IsSpace(s[|s| - n - 1]))
  {
    if s != [] && IsSpace(s[|s| - 1]) then 1 + Back(s[..|s| - 1]) else 0
  }

  /** The text without the spaces at its two ends. */
  ghost function Trim(s: string): string {
    var t := s[Front(s)..];
    t[..|t| - Back(t)]
  }

  /** Everything between two characters that are not spaces stays. */
  lemma TrimKeeps(s: string, a: nat, k: nat, b: nat)
    requires a <= k <= b < |s| && !IsSpace(s[a]) && !IsSpace(s[b])
    ensures s[k] in Trim(s)
  {
    var n := Front(s);
    var t := s[n..];
    assert t[b - n] == s[b] && t[k - n] == s[k];
    assert Trim(s)[k - n] == s[k];
  }

  lemma TrimIs(s: string, a: nat, b: nat)
    requires a <= b <= |s| && (forall i :: 0 <= i < a ==> IsSpace(s[i])) && (forall i :: b <= i < |s| ==> IsSpace(s[i]))
    requires forall i :: a <= i < b ==> !IsSpace(s[i])
    requires a < b || a == |s|
    ensures Trim(s) == s[a..b]
  {
    FrontIs(s, a);
    BackOf(s, a, b);
    assert s[a..][..b - a] == s[a..b];
  }

  lemma BackOf(s: string, a: nat, b: nat)
    requires a <= b <= |s| && (forall i :: b <= i < |s| ==> IsSpace(s[i])) && (a < b ==> !IsSpace(s[b - 1]))
    requires a < b || a == |s|
    ensures Back(s[a..]) == |s| - b
  {
    if a < b {
      var t := s[a..];
      assert t[b - a - 1] == s[b - 1];
      BackIs(t, |s| - b);
    }
  }

  lemma FrontIs(s: string, n: nat)
    requires n <= |s| && (forall i :: 0 <= i < n ==> IsSpace(s[i])) && (n < |s| ==> !IsSpace(s[n]))
    ensures Front(s) == n
  {
  }

  lemma BackIs(s: string, n: nat)
    requires n < |s| && (forall i :: |s| - n <= i < |s| ==> IsSpace(s[i])) && !IsSpace(s[|s| - n - 1])
    ensures Back(s) == n
  {
  }

  // ---------------------------------------------------------------- what the two directions compute

  ghost predicate Bytes(b: seq<nat>) {
    DigitsOf(b, 256)
  }

  function Fill<T>(n: nat, x: T): (s: seq<T>)
    ensures |s| == n && forall i :: 0 <= i < n ==> s[i] == x
  {
    seq(n, _ => x)
  }

  /** One 1 for each leading zero byte, then the number in base 58. */
  ghost function Encoded(al: string, b: seq<nat>): string
    requires Alphabet(al)
  {
    var d := Digits(Value(b, 256), 58);
    Fill(Leading(b, 0), '1') + Chars(al, d)
  }

  /** One zero byte for each leading 1, then the number in base 256; nothing if a character is foreign. */
  ghost function Decoded(al: string, t: string): Option<seq<nat>> {
    if InAlphabet(al, t) then
      var z := Leading(t, '1');
      Some(Fill(z, 0) + Digits(Value(Indices(al, t[z..]), 58), 256))
    else None
  }

  lemma OneIsZero(al: string, c: char)
    requires Alphabet(al)
    ensures Index(al, c) == 0 <==> c == '1'
  {
  }

  /** Text made of alphabet characters is not trimmed. */
  lemma TrimText(al: string, t: string)
    requires Alphabet(al)
    requires InAlphabet(al, t)
    ensures Trim(t) == t
  {
    forall i | 0 <= i < |t| ensures !IsSpace(t[i]) {
      IndexOfChar(al, Index(al, t[i]));
    }
    TrimIs(t, 0, |t|);
  }

  /** The digits of a text that fills up with 1 in front of other digits. */
  lemma FilledText(al: string, z: nat, d: seq<nat>)
    requires DigitsOf(d, 58) && (d != [] ==> d[0] != 0) && Alphabet(al)
    ensures var e := Fill(z, '1') + Chars(al, d);
            InAlphabet(al, e) && Leading(e, '1') == z && Indices(al, e[z..]) == d
  {
    var e := Fill(z, '1') + Chars(al, d);
    forall i | 0 <= i < |e| ensures Index(al, e[i]) < 58 {
      FilledChar(al, z, d, i);
    }
    FilledLeading(al, z, d);
    FilledIndices(al, z, d);
  }

  lemma FilledLeading(al: string, z: nat, d: seq<nat>)
    requires DigitsOf(d, 58) && (d != [] ==> d[0] != 0) && Alphabet(al)
    ensures Leading(Fill(z, '1') + Chars(al, d), '1') == z
  {
    var e := Fill(z, '1') + Chars(al, d);
    if d != [] {
      FilledChar(al, z, d, z);
      OneIsZero(al, e[z]);
    }
    LeadingIs(e, '1', z);
  }

  lemma FilledIndices(al: string, z: nat, d: seq<nat>)
    requires DigitsOf(d, 58) && Alphabet(al)
    ensures Indices(al, (Fill(z, '1') + Chars(al, d))[z..]) == d
  {
    var x := Indices(al, (Fill(z, '1') + Chars(al, d))[z..]);
    forall i | 0 <= i < |d| ensures x[i] == d[i] {
      FilledChar(al, z, d, z + i);
    }
  }

  lemma FilledChar(al: string, z: nat, d: seq<nat>, i: nat)
    requires DigitsOf(d, 58) && Alphabet(al) && i < z + |d|
    ensures Index(al, (Fill(z, '1') + Chars(al, d))[i]) == if i < z then 0 else d[i - z]
  {
    if i < z {
      OneIsZero(al, '1');
    } else {
      IndexOfChar(al, d[i - z]);
    }
  }

  lemma Refill(b: seq<nat>, z: nat)
    requires z <= |b| && forall i :: 0 <= i < z ==> b[i] == 0
    ensures Fill(z, 0) + b[z..] == b
  {
  }

  /** Bytes are their leading zeros and the digits of their value. */
  lemma BytesBack(b: seq<nat>)
    requires Bytes(b)
    ensures Fill(Leading(b, 0), 0) + Digits(Value(b, 256), 256) == b
  {
    var z := Leading(b, 0);
    StrippedDigits(b, z, 256);
    Refill(b, z);
  }

  /** Decoding what was encoded gives the bytes back. */
  lemma DecodeEncoded(al: string, b: seq<nat>)
    requires Alphabet(al)
    requires Bytes(b)
    ensures Trim(Encoded(al, b)) == Encoded(al, b) && Decoded(al, Encoded(al, b)) == Some(b)
  {
    var z, v := Leading(b, 0), Value(b, 256);
    FilledText(al, z, Digits(v, 58));
    ValueOfDigits(v, 58);
    TrimText(al, Encoded(al, b));
    BytesBack(b);
  }

  /** Encoding what was decoded gives the text back. */
  lemma EncodeDecoded(al: string, t: string)
    requires Alphabet(al)
    requires InAlphabet(al, t)
    ensures Bytes(Decoded(al, t).value) && Encoded(al, Decoded(al, t).value) == t
  {
    var z := Leading(t, '1');
    var x := Indices(al, t[z..]);
    FilledBytes(z, Value(x, 58));
    ValueIndices(al, t, z);
    EncodedIs(al, Decoded(al, t).value, z, x);
    Retext(al, t, z);
  }

  lemma EncodedIs(al: string, b: seq<nat>, z: nat, d: seq<nat>)
    requires Leading(b, 0) == z && Digits(Value(b, 256), 58) == d && Alphabet(al)
    ensures Encoded(al, b) == Fill(z, '1') + Chars(al, d)
  {
  }

  lemma Retext(al: string, t: string, z: nat)
    requires InAlphabet(al, t) && z == Leading(t, '1') && Alphabet(al)
    ensures Fill(z, '1') + Chars(al, Indices(al, t[z..])) == t
  {
  }

  lemma FilledBytes(z: nat, v: nat)
    ensures var b := Fill(z, 0) + Digits(v, 256);
            Bytes(b) && Leading(b, 0) == z && Value(b, 256) == v
  {
    var d := Digits(v, 256);
    var b := Fill(z, 0) + d;
    LeadingIs(b, 0, z);
    ValueZeros(b, z, 256);
    assert b[z..] == d;
    ValueOfDigits(v, 256);
  }

  lemma ValueIndices(al: string, t: string, z: nat)
    requires Alphabet(al)
    requires InAlphabet(al, t) && z == Leading(t, '1')
    ensures Digits(Value(Indices(al, t[z..]), 58), 58) == Indices(al, t[z..])
  {
    if z < |t| {
      OneIsZero(al, t[z]);
    }
    DigitsOfValue(Indices(al, t[z..]), 58);
  }

  // ---------------------------------------------------------------- the buffers are large enough

  lemma Pow58()
    ensures Pow(58, 71) == 58 * Pow(430804206899405824, 7)
  {
    assert Pow(58, 10) == 430804206899405824;
    PowMul(58, 10, 7, 70);
    PowAdd(58, 1, 70);
  }

  lemma Pow256()
    ensures Pow(256, 52) == Pow(20282409603651670423947251286016, 4)
  {
    assert Pow(256, 13) == 20282409603651670423947251286016;
    PowMul(256, 13, 4, 52);
  }

  /** The rate 11/8 is on the safe side of the ratio of the logarithms of 256 and 58. */
  lemma EncodeRate(a: nat, p: nat, b: nat, q: nat)
    requires a == 256 && p == 8 && b == 58 && q == 11
    ensures Pow(a, p) <= Pow(b, q)
  {
    assert Pow(256, 8) <= Pow(58, 11);
  }

  /** And so is the rate 52/71 in the other direction. */
  lemma DecodeRate(a: nat, p: nat, b: nat, q: nat)
    requires a == 58 && p == 71 && b == 256 && q == 52
    ensures Pow(a, p) <= Pow(b, q)
  {
    Pow58();
    Pow256();
    assert 58 * Pow(430804206899405824, 7) <= Pow(20282409603651670423947251286016, 4);
  }

  lemma RateHolds(m: nat, n: nat, size: nat, x: nat, y: nat, q: nat, p: nat)
    requires (x == 138 && y == 100 && q == 11 && p == 8) || (x == 733 && y == 1000 && q == 52 && p == 71)
    requires m <= n && size == n * x / y + 1
    ensures q * m <= size * p
  {
  }

  lemma EncodeGrows(a: nat, p: nat, b: nat, q: nat, m: nat, n: nat, size: nat)
    requires a == 256 && p == 8 && b == 58 && q == 11
    requires m <= n && size == n * 138 / 100 + 1
    ensures Pow(a, m) <= Pow(b, size)
  {
    EncodeRate(a, p, b, q);
    RateHolds(m, n, size, 138, 100, q, p);
    Outgrows(a, p, b, q, m, size);
  }

  lemma DecodeGrows(a: nat, p: nat, b: nat, q: nat, m: nat, n: nat, size: nat)
    requires a == 58 && p == 71 && b == 256 && q == 52
    requires m <= n && size == n * 733 / 1000 + 1
    ensures Pow(a, m) <= Pow(b, size)
  {
    DecodeRate(a, p, b, q);
    RateHolds(m, n, size, 733, 1000, q, p);
    Outgrows(a, p, b, q, m, size);
  }

  /** A buffer of 138/100 base-58 digits per byte and one more holds every number of up to n bytes. */
  lemma EncodeFits(m: nat, n: nat, size: nat)
    requires m <= n && size == n * 138 / 100 + 1
    ensures Pow(256, m) <= Pow(58, size)
  {
    EncodeGrows(256, 8, 58, 11, m, n, size);
  }

  /** A buffer of 733/1000 bytes per character and one more holds every number of up to n base-58 digits. */
  lemma DecodeFits(m: nat, n: nat, size: nat)
    requires m <= n && size == n * 733 / 1000 + 1
    ensures Pow(58, m) <= Pow(256, size)
  {
    DecodeGrows(58, 71, 256, 52, m, n, size);
  }

  // ---------------------------------------------------------------- the two operations

  method Encode(al: string, p: seq<nat>) returns (str: string)
    requires Alphabet(al)
    requires Bytes(p)
    ensures str == Encoded(al, p)
  {
    var zeroes := 0;
    while zeroes < |p| && p[zeroes] == 0
      invariant zeroes <= |p| && forall k :: 0 <= k < zeroes ==> p[k] == 0
    {
      zeroes := zeroes + 1;
    }
    LeadingIs(p, 0, zeroes);
    ValueZeros(p, zeroes, 256);
    var b58 := ToBase58(p[zeroes..]);
    var it := SkipZeros(b58, 58);
    str := Fill(zeroes, '1') + Chars(al, b58[it..]);
  }

  method ToBase58(p: seq<nat>) returns (b58: array<nat>)
    requires Bytes(p)
    ensures fresh(b58) && DigitsOf(b58[..], 58) && Value(b58[..], 58) == Value(p, 256)
  {
    b58 := Buffer(|p| * 138 / 100 + 1, 58);
    for i := 0 to |p|
      invariant DigitsOf(b58[..], 58) && Value(b58[..], 58) == Value(p[..i], 256)
    {
      EncodeFits(i + 1, |p|, b58.Length);
      Append(b58, 58, 256, p[..i], p[i]);
      assert p[..i] + [p[i]] == p[..i + 1];
    }
    assert p[..|p|] == p;
  }

  /** A buffer that holds zero. */
  method Buffer(size: nat, base: nat) returns (b: array<nat>)
    requires base >= 2
    ensures fresh(b) && b.Length == size && DigitsOf(b[..], base) && Value(b[..], base) == 0
  {
    b := new nat[size](_ => 0);
    AllZero(b[..], base);
  }

  lemma AllZero(d: seq<nat>, base: nat)
    requires base >= 2 && forall i :: 0 <= i < |d| ==> d[i] == 0
    ensures DigitsOf(d, base) && Value(d, base) == 0
  {
    ValueZeros(d, |d|, base);
  }

  /** The first digit that is not zero. */
  method SkipZeros(b: array<nat>, base: nat) returns (it: nat)
    requires base >= 2 && DigitsOf(b[..], base)
    ensures it <= b.Length && b[it..] == Digits(Value(b[..], base), base)
  {
    it := 0;
    while it < b.Length && b[it] == 0
      invariant it <= b.Length && forall k :: 0 <= k < it ==> b[k] == 0
    {
      it := it + 1;
    }
    StrippedDigits(b[..], it, base);
  }

  /** The first place from one on that holds no space. */
  method SkipSpaces(psz: string, from: nat) returns (i: nat)
    requires from <= |psz|
    ensures from <= i <= |psz| && (forall k :: from <= k < i ==> IsSpace(psz[k])) && (i < |psz| ==> !IsSpace(psz[i]))
  {
    i := from;
    while i < |psz| && IsSpace(psz[i])
      invariant from <= i <= |psz| && forall k :: from <= k < i ==> IsSpace(psz[k])
    {
      i := i + 1;
    }
  }

  /** The text before the terminating zero, with spaces allowed around it. */
  method Decode(al: string, psz: string) returns (vch: Option<seq<nat>>)
    requires Alphabet(al)
    ensures vch == Decoded(al, Trim(psz))
  {
    var begin := SkipSpaces(psz, 0);
    var zeroes := 0;
    while begin + zeroes < |psz| && psz[begin + zeroes] == '1'
      invariant begin + zeroes <= |psz| && forall k :: begin <= k < begin + zeroes ==> psz[k] == '1'
    {
      zeroes := zeroes + 1;
    }
    vch := DecodeRest(al, psz, begin, zeroes);
  }

  /** The spaces in front end at begin, and the ones after them number zeroes. */
  ghost predicate Started(psz: string, begin: nat, zeroes: nat) {
    && begin + zeroes <= |psz|
    && (forall k :: 0 <= k < begin ==> IsSpace(psz[k])) && (begin < |psz| ==> !IsSpace(psz[begin]))
    && (forall k :: begin <= k < begin + zeroes ==> psz[k] == '1') && (begin + zeroes < |psz| ==> psz[begin + zeroes] != '1')
  }

  /** The digits after the ones, then nothing but spaces. */
  method DecodeRest(al: string, psz: string, begin: nat, zeroes: nat) returns (vch: Option<seq<nat>>)
    requires Alphabet(al) && Started(psz, begin, zeroes)
    ensures vch == Decoded(al, Trim(psz))
  {
    var ok, b256, end := ToBase256(al, psz, begin + zeroes);
    if !ok {
      Foreign(al, psz, end, end, end);
      return None;
    }
    var i := SkipSpaces(psz, end);
    if i != |psz| {
      SpaceForeign(al, psz[end]);
      Foreign(al, psz, begin, end, i);
      return None;
    }
    Accepted(al, psz, begin, zeroes, end);
    var it := SkipZeros(b256, 256);
    vch := Some(Fill(zeroes, 0) + b256[it..]);
  }

  /** b256 = b256 * 58 + ch for every character up to a space or the end. */
  method ToBase256(al: string, psz: string, from: nat) returns (ok: bool, b256: array<nat>, end: nat)
    requires Alphabet(al)
    requires from <= |psz|
    ensures fresh(b256) && DigitsOf(b256[..], 256) && from <= end <= |psz|
    ensures Known(al, psz, from, end)
    ensures ok ==> Value(b256[..], 256) == Value(Indices(al, psz[from..end]), 58) && (end == |psz| || IsSpace(psz[end]))
    ensures !ok ==> end < |psz| && !IsSpace(psz[end]) && Index(al, psz[end]) >= 58
  {
    b256 := Buffer((|psz| - from) * 733 / 1000 + 1, 256);
    end := from;
    while end < |psz| && !IsSpace(psz[end])
      invariant from <= end <= |psz| && Known(al, psz, from, end)
      invariant DigitsOf(b256[..], 256) && Value(b256[..], 256) == Value(Indices(al, psz[from..end]), 58)
    {
      var found, ch := Find(al, psz[end]);
      if !found {
        return false, b256, end;
      }
      AppendChar(al, b256, psz, from, end, ch);
      end := end + 1;
    }
    ok := true;
  }

  method AppendChar(al: string, b256: array<nat>, psz: string, ghost from: nat, ghost end: nat, ch: nat)
    requires Alphabet(al)
    requires from <= end < |psz| && Known(al, psz, from, end) && ch == Index(al, psz[end]) < 58
    requires b256.Length == (|psz| - from) * 733 / 1000 + 1
    requires DigitsOf(b256[..], 256) && Value(b256[..], 256) == Value(Indices(al, psz[from..end]), 58)
    modifies b256
    ensures DigitsOf(b256[..], 256) && Value(b256[..], 256) == Value(Indices(al, psz[from..end + 1]), 58)
    ensures Known(al, psz, from, end + 1)
  {
    DecodeFits(end - from + 1, |psz| - from, b256.Length);
    IndicesSnoc(al, psz, from, end);
    Append(b256, 256, 58, Indices(al, psz[from..end]), ch);
  }

  /** The place of c in the alphabet, if it is there. */
  method Find(al: string, c: char) returns (found: bool, ch: nat)
    requires Alphabet(al)
    ensures ch == Index(al, c) && (found <==> ch < 58)
  {
    ch := Index(al, c);
    found := ch < |al|;
  }

  lemma IndicesSnoc(al: string, s: string, from: nat, end: nat)
    requires from <= end < |s|
    ensures Indices(al, s[from..end]) + [Index(al, s[end])] == Indices(al, s[from..end + 1])
    ensures Known(al, s, from, end) ==> DigitsOf(Indices(al, s[from..end]), 58)
    ensures Known(al, s, from, end) && Index(al, s[end]) < 58 ==> Known(al, s, from, end + 1)
  {
  }

  lemma SpaceForeign(al: string, c: char)
    requires Alphabet(al)
    requires IsSpace(c)
    ensures Index(al, c) >= 58
  {
    if Index(al, c) < 58 {
      IndexOfChar(al, Index(al, c));
    }
  }

  /** A foreign character that trimming keeps makes the text undecodable. */
  lemma Foreign(al: string, s: string, a: nat, k: nat, b: nat)
    requires Alphabet(al)
    requires a <= k <= b < |s| && !IsSpace(s[a]) && !IsSpace(s[b]) && Index(al, s[k]) >= 58
    ensures Decoded(al, Trim(s)) == None
  {
    TrimKeeps(s, a, k, b);
  }

  lemma Accepted(al: string, s: string, begin: nat, zeroes: nat, end: nat)
    requires Alphabet(al)
    requires begin + zeroes <= end <= |s|
    requires (forall k :: 0 <= k < begin ==> IsSpace(s[k])) && (forall k :: end <= k < |s| ==> IsSpace(s[k]))
    requires begin < |s| ==> !IsSpace(s[begin])
    requires forall k :: begin <= k < begin + zeroes ==> s[k] == '1'
    requires begin + zeroes < end ==> s[begin + zeroes] != '1'
    requires Known(al, s, begin + zeroes, end)
    ensures Decoded(al, Trim(s)) == Some(Fill(zeroes, 0) + Digits(Value(Indices(al, s[begin + zeroes..end]), 58), 256))
  {
    AcceptedTrim(al, s, begin, zeroes, end);
    var t := s[begin..end];
    LeadingIs(t, '1', zeroes);
    assert t[zeroes..] == s[begin + zeroes..end];
  }

  lemma AcceptedTrim(al: string, s: string, begin: nat, zeroes: nat, end: nat)
    requires Alphabet(al)
    requires begin + zeroes <= end <= |s|
    requires (forall k :: 0 <= k < begin ==> IsSpace(s[k])) && (forall k :: end <= k < |s| ==> IsSpace(s[k]))
    requires begin < |s| ==> !IsSpace(s[begin])
    requires forall k :: begin <= k < begin + zeroes ==> s[k] == '1'
    requires Known(al, s, begin + zeroes, end)
    ensures Trim(s) == s[begin..end] && InAlphabet(al, s[begin..end])
  {
    forall k | begin <= k < end ensures Index(al, s[k]) < 58 && !IsSpace(s[k]) {
      OneIsZero(al, s[k]);
      IndexOfChar(al, Index(al, s[k]));
    }
    TrimIs(s, begin, end);
  }
}
