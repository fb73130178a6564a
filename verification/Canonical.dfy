/**
 The canonical value format: every value is a tag, the length of its payload in four big-endian bytes,
 and the payload. Text is encoded in Unicode Normalization Form C; the normalization, with its UTF-8
 encoding, is a parameter.
 */
module Canonical {
  import opened Wrappers
  import opened Digits

  const MAX_CANONICAL_BYTES: nat := 1_048_576
  const MAX_CANONICAL_NESTING: nat := 64
  const MAX_FIXED_SCALE: nat := 18
  const MAX_FIXED_DIGITS: nat := 38
  const CANONICAL_PROFILE_VERSION: nat := 1
  const MAX_DOMAIN_BYTES: nat := 128

  newtype byte = x: int | 0 <= x < 256

  /** Text to its normalized bytes. */
  type Normalizer = string -> seq<byte>

  datatype Value =
    | Null
    | Bool(bool)
    | Integer(n: int)
    | Text(text: string)
    | Bytes(bytes: seq<byte>)
    | Fixed(digits: string, scale: nat)
    | EpochNanoseconds(ns: int)
    | List(items: seq<Value>)
    | Mapping(entries: seq<Entry>)

  datatype Entry = Entry(key: seq<byte>, value: Value)

  // ---------------------------------------------------------------------------------------
  // Bytes
  // ---------------------------------------------------------------------------------------

  /** The low four bytes of a number, the most significant first. */
  function Be32(n: nat): (b: seq<byte>)
    ensures |b| == 4
  {
    [(n / 256 / 256 / 256 % 256) as byte, (n / 256 / 256 % 256) as byte, (n / 256 % 256) as byte, (n % 256) as byte]
  }

  /** A signed 64-bit number in two's complement. */
  function Be64(n: int): (b: seq<byte>)
    ensures |b| == 8
  {
    var unsigned := n % 0x1_0000_0000_0000_0000;
    Be32(unsigned / 0x1_0000_0000) + Be32(unsigned % 0x1_0000_0000)
  }

  lemma Be32IsInjective(m: nat, n: nat)
    requires m < 0x1_0000_0000 && n < 0x1_0000_0000 && Be32(m) == Be32(n)
    ensures m == n
  {
    Be32Reads(m);
    Be32Reads(n);
    assert Be32(m)[0] == Be32(n)[0] && Be32(m)[1] == Be32(n)[1] && Be32(m)[2] == Be32(n)[2] && Be32(m)[3] == Be32(n)[3];
  }

  lemma Be32Reads(n: nat)
    requires n < 0x1_0000_0000
    ensures var b := Be32(n);
            n == b[0] as int * 0x100_0000 + b[1] as int * 0x1_0000 + b[2] as int * 0x100 + b[3] as int
  {
    var high := n / 256;
    var higher := high / 256;
    assert n == 256 * high + n % 256 && high == 256 * higher + high % 256;
    assert higher == 256 * (higher / 256) + higher % 256 && higher / 256 < 256;
  }

  lemma Be64IsInjective(m: int, n: int)
    requires -0x8000_0000_0000_0000 <= m < 0x8000_0000_0000_0000
    requires -0x8000_0000_0000_0000 <= n < 0x8000_0000_0000_0000
    requires Be64(m) == Be64(n)
    ensures m == n
  {
    hide Be32;
    var a, b := m % 0x1_0000_0000_0000_0000, n % 0x1_0000_0000_0000_0000;
    assert Be64(m)[..4] == Be32(a / 0x1_0000_0000) && Be64(m)[4..] == Be32(a % 0x1_0000_0000);
    assert Be64(n)[..4] == Be32(b / 0x1_0000_0000) && Be64(n)[4..] == Be32(b % 0x1_0000_0000);
    Be32IsInjective(a / 0x1_0000_0000, b / 0x1_0000_0000);
    Be32IsInjective(a % 0x1_0000_0000, b % 0x1_0000_0000);
  }

  predicate IsAscii(s: string) {
    forall i :: 0 <= i < |s| ==> s[i] as int < 128
  }

  function Ascii(s: string): (b: seq<byte>)
    ensures |b| == |s|
  {
    seq(|s|, i requires 0 <= i < |s| => (s[i] as int % 256) as byte)
  }

  lemma AsciiIsInjective(s: string, t: string)
    requires IsAscii(s) && IsAscii(t) && Ascii(s) == Ascii(t)
    ensures s == t
  {
    assert |s| == |t|;
    forall i | 0 <= i < |s|
      ensures s[i] == t[i]
    {
      assert Ascii(s)[i] == Ascii(t)[i];
    }
  }

  // ---------------------------------------------------------------------------------------
  // Fixed-scale decimals
  // ---------------------------------------------------------------------------------------

  datatype CanonicalError =
    | InvalidDecimal
    | DecimalOverflow
    | InvalidNormalization
    | CanonicalOverflow
    | NestingOverflow
    | InvalidDomain

  /** The text without its minus sign. */
  function Magnitude(text: string): string {
    if text != [] && text[0] == '-' then text[1..] else text
  }

  /** Where the first decimal point is, or the end. */
  function PointAt(s: string): (i: nat)
    ensures i <= |s|
  {
    if s == [] || s[0] == '.' then 0 else 1 + PointAt(s[1..])
  }

  predicate AllZeros(s: string) {
    forall i :: 0 <= i < |s| ==> s[i] == '0'
  }

  /** Why a text is not a decimal at its declared scale, if it is not. */
  function FixedError(text: string, scale: nat): Option<CanonicalError> {
    if scale > MAX_FIXED_SCALE then Some(InvalidDecimal)
    else
      var magnitude := Magnitude(text);
      var point := PointAt(magnitude);
      var whole := magnitude[..point];
      var hasFraction := point < |magnitude|;
      var fraction := if hasFraction then magnitude[point + 1..] else [];
      if (scale == 0 && hasFraction) || (scale > 0 && !hasFraction) || whole == []
         || !AllDigits(whole) || !AllDigits(fraction) || (|whole| > 1 && whole[0] == '0') || |fraction| != scale
      then Some(InvalidDecimal)
      else if |whole| + |fraction| > MAX_FIXED_DIGITS then Some(DecimalOverflow)
      else if text[0] == '-' && AllZeros(whole) && AllZeros(fraction) then Some(InvalidNormalization)
      else None
  }

  lemma FixedIsAscii(text: string, scale: nat)
    requires FixedError(text, scale).None?
    ensures IsAscii(text)
  {
    var magnitude := Magnitude(text);
    var point := PointAt(magnitude);
    PointIsAPoint(magnitude);
    forall i | 0 <= i < |magnitude|
      ensures magnitude[i] as int < 128
    {
      if i < point {
        assert IsDigit(magnitude[..point][i]);
      } else if i > point {
        assert IsDigit(magnitude[point + 1..][i - point - 1]);
      }
    }
  }

  lemma {:induction false} PointIsAPoint(s: string)
    ensures PointAt(s) < |s| ==> s[PointAt(s)] == '.'
  {
    if s != [] && s[0] != '.' {
      PointIsAPoint(s[1..]);
    }
  }

  // ---------------------------------------------------------------------------------------
  // Values
  // ---------------------------------------------------------------------------------------

  /** What the value constructors guarantee. */
  ghost predicate Constructed(nfc: Normalizer, v: Value)
    decreases v
  {
    match v
    case Text(text) => |text| <= MAX_CANONICAL_BYTES && |nfc(text)| <= MAX_CANONICAL_BYTES
    case Fixed(digits, scale) => FixedError(digits, scale).None?
    case EpochNanoseconds(ns) => -0x8000_0000_0000_0000 <= ns < 0x8000_0000_0000_0000
    case List(items) =>
      && |items| <= (MAX_CANONICAL_BYTES - 4) / 5
      && forall i :: 0 <= i < |items| ==> Constructed(nfc, items[i])
    case Mapping(entries) =>
      && |entries| <= (MAX_CANONICAL_BYTES - 4) / 10
      && forall i :: 0 <= i < |entries| ==> Constructed(nfc, entries[i].value)
    case _ => true
  }

  /** What encoding checks again: text within its bound and decimals at their scale. */
  ghost predicate Sound(nfc: Normalizer, v: Value)
    decreases v
  {
    match v
    case Text(text) => |text| <= MAX_CANONICAL_BYTES && |nfc(text)| <= MAX_CANONICAL_BYTES
    case Fixed(digits, scale) => FixedError(digits, scale).None?
    case List(items) => forall i :: 0 <= i < |items| ==> Sound(nfc, items[i])
    case Mapping(entries) => forall i :: 0 <= i < |entries| ==> Sound(nfc, entries[i].value)
    case _ => true
  }

  lemma {:induction false} ConstructedIsSound(nfc: Normalizer, v: Value)
    requires Constructed(nfc, v)
    ensures Sound(nfc, v)
    decreases v
  {
    if v.List? {
      forall i | 0 <= i < |v.items| {
        ConstructedIsSound(nfc, v.items[i]);
      }
    } else if v.Mapping? {
      forall i | 0 <= i < |v.entries| {
        ConstructedIsSound(nfc, v.entries[i].value);
      }
    }
  }

  /** How deep a value's innermost lists and maps are: zero for one without items. */
  ghost function Depth(v: Value): nat
    decreases v
  {
    match v
    case List(items) => DeepestItem(items, |items|)
    case Mapping(entries) => DeepestEntry(entries, |entries|)
    case _ => 0
  }

  ghost function DeepestItem(items: seq<Value>, n: nat): nat
    requires n <= |items|
    decreases items, n
  {
    if n == 0 then 0
    else
      var earlier, last := DeepestItem(items, n - 1), 1 + Depth(items[n - 1]);
      if earlier >= last then earlier else last
  }

  ghost function DeepestEntry(entries: seq<Entry>, n: nat): nat
    requires n <= |entries|
    decreases entries, n
  {
    if n == 0 then 0
    else
      var earlier, last := DeepestEntry(entries, n - 1), 1 + Depth(entries[n - 1].value);
      if earlier >= last then earlier else last
  }

  /** Equal up to the normalization of their strings. */
  ghost predicate Alike(nfc: Normalizer, v: Value, w: Value)
    decreases v
  {
    match v
    case Text(text) => w.Text? && nfc(text) == nfc(w.text)
    case List(items) =>
      && w.List? && |w.items| == |items|
      && forall i :: 0 <= i < |items| ==> Alike(nfc, items[i], w.items[i])
    case Mapping(entries) =>
      && w.Mapping? && |w.entries| == |entries|
      && forall i :: 0 <= i < |entries| ==>
           entries[i].key == w.entries[i].key && Alike(nfc, entries[i].value, w.entries[i].value)
    case _ => v == w
  }

  // ---------------------------------------------------------------------------------------
  // The format
  // ---------------------------------------------------------------------------------------

  function Tag(v: Value): byte {
    match v
    case Null => 110
    case Bool(_) => 98
    case Integer(_) => 105
    case Text(_) => 115
    case Bytes(_) => 120
    case Fixed(_, _) => 100
    case EpochNanoseconds(_) => 116
    case List(_) => 108
    case Mapping(_) => 109
  }

  function Framed(tag: byte, payload: seq<byte>): (b: seq<byte>)
    ensures |b| == 5 + |payload|
  {
    [tag] + Be32(|payload|) + payload
  }

  ghost function Payload(nfc: Normalizer, v: Value): seq<byte>
    decreases v, 0
  {
    match v
    case Null => []
    case Bool(b) => if b then [49] else [48]
    case Integer(n) => Ascii(Signed(n))
    case Text(text) => nfc(text)
    case Bytes(bytes) => bytes
    case Fixed(digits, scale) => [(scale % 256) as byte] + Ascii(digits)
    case EpochNanoseconds(ns) => Be64(ns)
    case List(items) => Be32(|items|) + Items(nfc, items, |items|)
    case Mapping(entries) => Be32(|entries|) + Entries(nfc, entries, |entries|)
  }

  ghost function Encoding(nfc: Normalizer, v: Value): (b: seq<byte>)
    ensures |b| >= 5
    decreases v, 1
  {
    Framed(Tag(v), Payload(nfc, v))
  }

  /** The first `n` items. */
  ghost function Items(nfc: Normalizer, items: seq<Value>, n: nat): seq<byte>
    requires n <= |items|
    decreases items, n
  {
    if n == 0 then [] else Items(nfc, items, n - 1) + Encoding(nfc, items[n - 1])
  }

  /** The first `n` entries, each a framed key and its value. */
  ghost function Entries(nfc: Normalizer, entries: seq<Entry>, n: nat): seq<byte>
    requires n <= |entries|
    decreases entries, n
  {
    if n == 0 then []
    else Entries(nfc, entries, n - 1) + Framed(115, entries[n - 1].key) + Encoding(nfc, entries[n - 1].value)
  }

  // ---------------------------------------------------------------------------------------
  // Injectivity
  // ---------------------------------------------------------------------------------------

  /** A frame ends where its length says: what follows it does not matter. */
  lemma FramesArePrefixFree(s: byte, p: seq<byte>, a: seq<byte>, t: byte, q: seq<byte>, b: seq<byte>)
    requires |p| < 0x1_0000_0000 && |q| < 0x1_0000_0000
    requires Framed(s, p) + a == Framed(t, q) + b
    ensures s == t && p == q && a == b
  {
    hide Be32;
    var left, right := Framed(s, p) + a, Framed(t, q) + b;
    assert left[0] == s && right[0] == t;
    assert left[1..5] == Be32(|p|) && right[1..5] == Be32(|q|);
    Be32IsInjective(|p|, |q|);
    assert left[5..5 + |p|] == p && right[5..5 + |q|] == q;
    assert left[5 + |p|..] == a && right[5 + |q|..] == b;
  }

  ghost predicate Framable(nfc: Normalizer, v: Value) {
    |Payload(nfc, v)| < 0x1_0000_0000
  }

  /** Value encodings are prefix-free, and determine the value up to normalization. */
  lemma {:induction false} EncodingIsPrefixFree(nfc: Normalizer, v: Value, a: seq<byte>, w: Value, b: seq<byte>)
    requires Constructed(nfc, v) && Constructed(nfc, w) && Framable(nfc, v) && Framable(nfc, w)
    requires Encoding(nfc, v) + a == Encoding(nfc, w) + b
    ensures Alike(nfc, v, w) && a == b
    decreases v
  {
    hide Be32, Be64, Framed;
    FramesArePrefixFree(Tag(v), Payload(nfc, v), a, Tag(w), Payload(nfc, w), b);
    match v
    case Null =>
    case Bool(_) =>
    case Integer(n) => IntegersDiffer(n, w.n);
    case Text(_) =>
    case Bytes(_) =>
    case Fixed(_, _) => FixedDiffer(nfc, v, w);
    case EpochNanoseconds(ns) => Be64IsInjective(ns, w.ns);
    case List(items) =>
      assert Payload(nfc, v)[..4] == Be32(|items|) && Payload(nfc, w)[..4] == Be32(|w.items|);
      Be32IsInjective(|items|, |w.items|);
      assert Payload(nfc, v)[4..] == Items(nfc, items, |items|)
          && Payload(nfc, w)[4..] == Items(nfc, w.items, |w.items|);
      assert Items(nfc, items, |items|) + [] == Items(nfc, w.items, |w.items|) + [];
      ItemsArePrefixFree(nfc, items, [], w.items, [], |items|);
    case Mapping(entries) =>
      assert Payload(nfc, v)[..4] == Be32(|entries|) && Payload(nfc, w)[..4] == Be32(|w.entries|);
      Be32IsInjective(|entries|, |w.entries|);
      assert Payload(nfc, v)[4..] == Entries(nfc, entries, |entries|)
          && Payload(nfc, w)[4..] == Entries(nfc, w.entries, |w.entries|);
      assert Entries(nfc, entries, |entries|) + [] == Entries(nfc, w.entries, |w.entries|) + [];
      EntriesArePrefixFree(nfc, entries, [], w.entries, [], |entries|);
  }

  lemma IntegersDiffer(m: int, n: int)
    requires Ascii(Signed(m)) == Ascii(Signed(n))
    ensures m == n
  {
    SignedIsAscii(m);
    SignedIsAscii(n);
    AsciiIsInjective(Signed(m), Signed(n));
    SignedIsInjective(m, n);
  }

  lemma SignedIsAscii(n: int)
    ensures IsAscii(Signed(n))
  {
    var digits := DigitsOf(if n < 0 then -n else n);
    assert forall i :: 0 <= i < |digits| ==> IsDigit(digits[i]);
  }

  lemma FixedDiffer(nfc: Normalizer, v: Value, w: Value)
    requires v.Fixed? && w.Fixed? && Constructed(nfc, v) && Constructed(nfc, w) && Payload(nfc, v) == Payload(nfc, w)
    ensures v == w
  {
    assert Payload(nfc, v)[0] == Payload(nfc, w)[0];
    assert Payload(nfc, v)[1..] == Ascii(v.digits) && Payload(nfc, w)[1..] == Ascii(w.digits);
    FixedIsAscii(v.digits, v.scale);
    FixedIsAscii(w.digits, w.scale);
    AsciiIsInjective(v.digits, w.digits);
  }

  lemma {:induction false} ItemsArePrefixFree(
      nfc: Normalizer, v: seq<Value>, a: seq<byte>, w: seq<Value>, b: seq<byte>, n: nat)
    requires n <= |v| && n <= |w|
    requires forall i :: 0 <= i < n ==> Constructed(nfc, v[i]) && Constructed(nfc, w[i])
    requires |Items(nfc, v, n)| < 0x1_0000_0000 && |Items(nfc, w, n)| < 0x1_0000_0000
    requires Items(nfc, v, n) + a == Items(nfc, w, n) + b
    ensures a == b && forall i :: 0 <= i < n ==> Alike(nfc, v[i], w[i])
    decreases v, n
  {
    hide Alike, Constructed, Payload;
    if n > 0 {
      var x, y := v[n - 1], w[n - 1];
      var c, d := Encoding(nfc, x) + a, Encoding(nfc, y) + b;
      assert Items(nfc, v, n) + a == Items(nfc, v, n - 1) + c;
      assert Items(nfc, w, n) + b == Items(nfc, w, n - 1) + d;
      ItemsArePrefixFree(nfc, v, c, w, d, n - 1);
      EncodingIsPrefixFree(nfc, x, a, y, b);
    } else {
      assert [] + a == a && [] + b == b;
    }
  }

  lemma LastEntry(nfc: Normalizer, v: seq<Entry>, n: nat, a: seq<byte>)
    requires 0 < n <= |v|
    ensures Entries(nfc, v, n) + a
         == Entries(nfc, v, n - 1) + (Framed(115, v[n - 1].key) + (Encoding(nfc, v[n - 1].value) + a))
    ensures |Entries(nfc, v, n)| >= |Entries(nfc, v, n - 1)|
    ensures |Entries(nfc, v, n)| >= |v[n - 1].key| && |Entries(nfc, v, n)| >= |Payload(nfc, v[n - 1].value)|
  {
    hide Payload;
  }

  lemma {:induction false} EntriesArePrefixFree(
      nfc: Normalizer, v: seq<Entry>, a: seq<byte>, w: seq<Entry>, b: seq<byte>, n: nat)
    requires n <= |v| && n <= |w|
    requires forall i :: 0 <= i < n ==> Constructed(nfc, v[i].value) && Constructed(nfc, w[i].value)
    requires |Entries(nfc, v, n)| < 0x1_0000_0000 && |Entries(nfc, w, n)| < 0x1_0000_0000
    requires Entries(nfc, v, n) + a == Entries(nfc, w, n) + b
    ensures a == b && forall i :: 0 <= i < n ==> v[i].key == w[i].key && Alike(nfc, v[i].value, w[i].value)
    decreases v, n
  {
    hide Alike, Constructed, Payload, Framed, Encoding;
    if n == 0 {
      assert Entries(nfc, v, 0) == [] && Entries(nfc, w, 0) == [];
    }
    hide Entries;
    if n > 0 {
      var x, y := v[n - 1], w[n - 1];
      var c, d := Encoding(nfc, x.value) + a, Encoding(nfc, y.value) + b;
      LastEntry(nfc, v, n, a);
      LastEntry(nfc, w, n, b);
      EntriesArePrefixFree(nfc, v, Framed(115, x.key) + c, w, Framed(115, y.key) + d, n - 1);
      FramesArePrefixFree(115, x.key, c, 115, y.key, d);
      EncodingIsPrefixFree(nfc, x.value, a, y.value, b);
    } else {
      assert [] + a == a && [] + b == b;
    }
  }

  /** Values alike are encoded alike. */
  lemma {:induction false} AlikeEncodeAlike(nfc: Normalizer, v: Value, w: Value)
    requires Alike(nfc, v, w)
    ensures Encoding(nfc, v) == Encoding(nfc, w)
    decreases v
  {
    hide Be32, Be64, Framed;
    match v
    case List(items) => ItemsEncodeAlike(nfc, items, w.items, |items|);
    case Mapping(entries) => EntriesEncodeAlike(nfc, entries, w.entries, |entries|);
    case _ =>
  }

  lemma {:induction false} ItemsEncodeAlike(nfc: Normalizer, v: seq<Value>, w: seq<Value>, n: nat)
    requires n <= |v| && n <= |w| && forall i :: 0 <= i < n ==> Alike(nfc, v[i], w[i])
    ensures Items(nfc, v, n) == Items(nfc, w, n)
    decreases v, n
  {
    if n > 0 {
      ItemsEncodeAlike(nfc, v, w, n - 1);
      AlikeEncodeAlike(nfc, v[n - 1], w[n - 1]);
    }
  }

  lemma {:induction false} EntriesEncodeAlike(nfc: Normalizer, v: seq<Entry>, w: seq<Entry>, n: nat)
    requires n <= |v| && n <= |w|
    requires forall i :: 0 <= i < n ==> v[i].key == w[i].key && Alike(nfc, v[i].value, w[i].value)
    ensures Entries(nfc, v, n) == Entries(nfc, w, n)
    decreases v, n
  {
    if n > 0 {
      EntriesEncodeAlike(nfc, v, w, n - 1);
      AlikeEncodeAlike(nfc, v[n - 1].value, w[n - 1].value);
    }
  }

  // ---------------------------------------------------------------------------------------
  // Canonical bytes
  // ---------------------------------------------------------------------------------------

  /** "SCV3", the profile version, the framed domain and the value. */
  ghost function CanonicalForm(nfc: Normalizer, domain: string, v: Value): seq<byte> {
    [83, 67, 86, 51, CANONICAL_PROFILE_VERSION as byte] + Framed(68, nfc(domain)) + Encoding(nfc, v)
  }

  ghost predicate ValidDomain(nfc: Normalizer, domain: string) {
    |domain| <= MAX_CANONICAL_BYTES && 0 < |nfc(domain)| <= MAX_DOMAIN_BYTES
  }

  /** What has canonical bytes: a valid domain, bounded nesting and a bounded form. */
  ghost predicate HasCanonicalBytes(nfc: Normalizer, domain: string, v: Value) {
    ValidDomain(nfc, domain) && Depth(v) <= MAX_CANONICAL_NESTING
        && |CanonicalForm(nfc, domain, v)| <= MAX_CANONICAL_BYTES
  }

  /** Canonical injectivity: canonical bytes are equal exactly for equal domains and equal values, up to
      the normalization of their text. */
  lemma CanonicalBytesAreInjective(nfc: Normalizer, c: string, v: Value, d: string, w: Value)
    requires Constructed(nfc, v) && Constructed(nfc, w)
    requires HasCanonicalBytes(nfc, c, v) && HasCanonicalBytes(nfc, d, w)
    ensures CanonicalForm(nfc, c, v) == CanonicalForm(nfc, d, w) <==> nfc(c) == nfc(d) && Alike(nfc, v, w)
  {
    hide Framed, Constructed, Alike, Depth, Payload;
    if CanonicalForm(nfc, c, v) == CanonicalForm(nfc, d, w) {
      assert CanonicalForm(nfc, c, v)[5..] == Framed(68, nfc(c)) + Encoding(nfc, v);
      assert CanonicalForm(nfc, d, w)[5..] == Framed(68, nfc(d)) + Encoding(nfc, w);
      FramesArePrefixFree(68, nfc(c), Encoding(nfc, v), 68, nfc(d), Encoding(nfc, w));
      assert Encoding(nfc, v) + [] == Encoding(nfc, w) + [];
      EncodingIsPrefixFree(nfc, v, [], w, []);
    } else if nfc(c) == nfc(d) && Alike(nfc, v, w) {
      AlikeEncodeAlike(nfc, v, w);
    }
  }
}
