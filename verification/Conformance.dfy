/**
 The canonical profile as its document describes it, read off the bytes: type letters, lengths, and what
 each payload says. Three entries of the profile's corpus come out byte for byte.
 */
module Conformance {
  import opened Wrappers
  import opened Digits
  import opened Canonical

  /** Four bytes as an unsigned big-endian number. */
  function Read32(b: seq<byte>): nat
    requires |b| == 4
  {
    ((b[0] as int * 256 + b[1] as int) * 256 + b[2] as int) * 256 + b[3] as int
  }

  /** Eight bytes as a signed big-endian number in two's complement. */
  function Read64(b: seq<byte>): int
    requires |b| == 8
  {
    var unsigned := Read32(b[..4]) * 0x1_0000_0000 + Read32(b[4..]);
    if b[0] < 128 then unsigned else unsigned - 0x1_0000_0000_0000_0000
  }

  lemma Be32IsRead(n: nat)
    requires n < 0x1_0000_0000
    ensures Read32(Be32(n)) == n
  {
    Be32Reads(n);
    hide Be32;
  }

  lemma Be64IsRead(n: int)
    requires -0x8000_0000_0000_0000 <= n < 0x8000_0000_0000_0000
    ensures Read64(Be64(n)) == n
  {
    var unsigned := n % 0x1_0000_0000_0000_0000;
    var high, low := unsigned / 0x1_0000_0000, unsigned % 0x1_0000_0000;
    assert unsigned == 0x1_0000_0000 * high + low;
    Be32IsRead(high);
    Be32IsRead(low);
    Be32Reads(high);
    assert unsigned == if n < 0 then n + 0x1_0000_0000_0000_0000 else n;
    assert Be64(n)[..4] == Be32(high) && Be64(n)[4..] == Be32(low) && Be64(n)[0] == Be32(high)[0];
    hide Be32;
  }

  /** The type letter of a value. */
  predicate HasLetter(v: Value, letter: char) {
    match v
    case Null => letter == 'n'
    case Bool(_) => letter == 'b'
    case Integer(_) => letter == 'i'
    case EpochNanoseconds(_) => letter == 't'
    case Fixed(_, _) => letter == 'd'
    case Text(_) => letter == 's'
    case Bytes(_) => letter == 'x'
    case List(_) => letter == 'l'
    case Mapping(_) => letter == 'm'
  }

  /** Whether ASCII bytes are the shortest decimal digits of an integer, after a minus sign if it is
      negative. */
  ghost predicate SpellsInteger(b: seq<byte>, n: int) {
    exists digits: string ::
      && digits != [] && AllDigits(digits) && (|digits| > 1 ==> digits[0] != '0')
      && NatOf(digits) == (if n < 0 then -n else n)
      && b == (if n < 0 then Ascii("-") else []) + Ascii(digits)
  }

  /** Whether a payload is the value's: items and entries follow their count, in order, each entry a
      framed key and a value. */
  ghost predicate PayloadReads(nfc: Normalizer, v: Value, payload: seq<byte>) {
    match v
    case Null => payload == []
    case Bool(b) => payload == Ascii(if b then "1" else "0")
    case Integer(n) => SpellsInteger(payload, n)
    case EpochNanoseconds(ns) => |payload| == 8 && Read64(payload) == ns
    case Fixed(digits, scale) => |payload| > 0 && payload[0] as int == scale && payload[1..] == Ascii(digits)
    case Text(text) => payload == nfc(text)
    case Bytes(bytes) => payload == bytes
    case List(items) =>
      && |payload| >= 4 && Read32(payload[..4]) == |items|
      && payload[4..] == Joined(seq(|items|, k requires 0 <= k < |items| => Encoding(nfc, items[k])))
    case Mapping(entries) =>
      && |payload| >= 4 && Read32(payload[..4]) == |entries|
      && payload[4..] == Joined(seq(|entries|, k requires 0 <= k < |entries| => EntryRead(nfc, entries[k])))
  }

  /** A frame: a letter, the payload's length, and the payload. */
  function FramedAs(letter: char, payload: seq<byte>): seq<byte> {
    Ascii([letter]) + Be32(|payload|) + payload
  }

  ghost function EntryRead(nfc: Normalizer, entry: Entry): seq<byte> {
    FramedAs('s', entry.key) + Encoding(nfc, entry.value)
  }

  ghost function Joined(parts: seq<seq<byte>>): seq<byte> {
    if parts == [] then [] else Joined(parts[..|parts| - 1]) + parts[|parts| - 1]
  }

  lemma {:induction false} ItemsAreJoined(nfc: Normalizer, items: seq<Value>, n: nat)
    requires n <= |items|
    ensures Items(nfc, items, n) == Joined(seq(n, k requires 0 <= k < n => Encoding(nfc, items[k])))
  {
    hide Encoding;
    if n > 0 {
      ItemsAreJoined(nfc, items, n - 1);
      var parts := seq(n, k requires 0 <= k < n => Encoding(nfc, items[k]));
      assert parts[..n - 1] == seq(n - 1, k requires 0 <= k < n - 1 => Encoding(nfc, items[k]));
    }
  }

  lemma {:induction false} EntriesAreJoined(nfc: Normalizer, entries: seq<Entry>, n: nat)
    requires n <= |entries|
    ensures Entries(nfc, entries, n) == Joined(seq(n, k requires 0 <= k < n => EntryRead(nfc, entries[k])))
  {
    hide Encoding, FramedAs, Framed;
    if n > 0 {
      EntriesAreJoined(nfc, entries, n - 1);
      var parts := seq(n, k requires 0 <= k < n => EntryRead(nfc, entries[k]));
      assert parts[..n - 1] == seq(n - 1, k requires 0 <= k < n - 1 => EntryRead(nfc, entries[k]));
      KeyIsFramed(entries[n - 1].key);
      var before, key, value := Entries(nfc, entries, n - 1), FramedAs('s', entries[n - 1].key),
        Encoding(nfc, entries[n - 1].value);
      assert before + key + value == before + (key + value);
    }
  }

  lemma KeyIsFramed(key: seq<byte>)
    ensures Framed(115, key) == FramedAs('s', key)
  {
    assert Ascii("s") == [115];
  }

  lemma {:induction false} DigitsAreShortest(n: nat)
    ensures |DigitsOf(n)| > 1 ==> DigitsOf(n)[0] != '0'
    ensures n > 0 ==> DigitsOf(n)[0] != '0'
  {
    if n >= 10 {
      DigitsAreShortest(n / 10);
    }
  }

  lemma IntegersAreSpelled(n: int)
    ensures SpellsInteger(Ascii(Signed(n)), n)
  {
    var digits := DigitsOf(if n < 0 then -n else n);
    PrintedDigitsRead(if n < 0 then -n else n);
    DigitsAreShortest(if n < 0 then -n else n);
    hide DigitsOf, NatOf;
    if n < 0 {
      assert Ascii("-" + digits) == Ascii("-") + Ascii(digits);
    } else {
      assert Ascii(digits) == [] + Ascii(digits);
    }
  }

  /** Every encoding is as documented: a frame of the value's letter, whose payload reads as the value. */
  lemma {:induction false} EncodingsRead(nfc: Normalizer, v: Value)
    requires Constructed(nfc, v) && Framable(nfc, v)
    ensures exists letter, payload ::
      HasLetter(v, letter) && PayloadReads(nfc, v, payload) && Encoding(nfc, v) == FramedAs(letter, payload)
  {
    var letter := Tag(v) as char;
    var payload := Payload(nfc, v);
    assert Ascii([letter]) == [Tag(v)];
    PayloadIsRead(nfc, v);
    assert HasLetter(v, letter);
    assert Encoding(nfc, v) == FramedAs(letter, payload);
  }

  lemma {:induction false} PayloadIsRead(nfc: Normalizer, v: Value)
    requires Constructed(nfc, v) && Framable(nfc, v)
    ensures PayloadReads(nfc, v, Payload(nfc, v))
  {
    hide Be32, Be64, Encoding, FramedAs;
    match v
    case Null =>
    case Bool(b) =>
    case Integer(n) => IntegersAreSpelled(n);
    case EpochNanoseconds(ns) => Be64IsRead(ns);
    case Fixed(digits, scale) =>
    case Text(text) =>
    case Bytes(bytes) =>
    case List(items) =>
      Be32IsRead(|items|);
      ItemsAreJoined(nfc, items, |items|);
      assert Payload(nfc, v)[..4] == Be32(|items|);
    case Mapping(entries) =>
      Be32IsRead(|entries|);
      EntriesAreJoined(nfc, entries, |entries|);
      assert Payload(nfc, v)[..4] == Be32(|entries|);
  }

  lemma {:induction false} ItemsAreLong(nfc: Normalizer, items: seq<Value>, n: nat)
    requires n <= |items|
    ensures |Items(nfc, items, n)| >= 5 * n
  {
    hide Encoding;
    if n > 0 {
      ItemsAreLong(nfc, items, n - 1);
    }
  }

  lemma {:induction false} EntriesAreLong(nfc: Normalizer, entries: seq<Entry>, n: nat)
    requires n <= |entries|
    ensures |Entries(nfc, entries, n)| >= 10 * n
  {
    hide Encoding, Framed;
    if n > 0 {
      EntriesAreLong(nfc, entries, n - 1);
    }
  }

  /** The bounds on how many items and entries a value may be constructed of refuse only values whose payload
      is past the profile's bound. */
  lemma BoundsRefuseOnlyTheUnencodable(nfc: Normalizer, v: Value)
    requires v.List? ==> forall i :: 0 <= i < |v.items| ==> Constructed(nfc, v.items[i])
    requires v.Mapping? ==> forall i :: 0 <= i < |v.entries| ==> Constructed(nfc, v.entries[i].value)
    requires (v.List? || v.Mapping?) && !Constructed(nfc, v)
    ensures |Payload(nfc, v)| > 1_048_576
  {
    hide Be32, Encoding;
    if v.List? {
      ItemsAreLong(nfc, v.items, |v.items|);
    } else {
      EntriesAreLong(nfc, v.entries, |v.entries|);
    }
  }

  // ---------------------------------------------------------------------------------------
  // The corpus
  // ---------------------------------------------------------------------------------------

  /** Canonical bytes start with the magic, the profile's version and the domain's frame. */
  lemma FormsRead(nfc: Normalizer, domain: string, v: Value)
    ensures CanonicalForm(nfc, domain, v)
         == Ascii("SCV3") + [1] + FramedAs('D', nfc(domain)) + Encoding(nfc, v)
  {
    assert Ascii("D") == [68] && Ascii("SCV3") == [83, 67, 86, 51];
  }

  /** An instant one nanosecond before the epoch. */
  lemma NegativeInstant(nfc: Normalizer)
    requires nfc("strategy.instant") == Ascii("strategy.instant")
    ensures CanonicalForm(nfc, "strategy.instant", EpochNanoseconds(-1))
         == Ascii("SCV3") + [1] + FramedAs('D', Ascii("strategy.instant"))
              + [0x74, 0, 0, 0, 8, 0xFF, 0xFF, 0xFF, 0xFF, 0xFF, 0xFF, 0xFF, 0xFF]
  {
    assert Ascii("D") == [68] && Ascii("SCV3") == [83, 67, 86, 51];
    assert Be64(-1) == [0xFF, 0xFF, 0xFF, 0xFF, 0xFF, 0xFF, 0xFF, 0xFF];
    assert Be32(8) == [0, 0, 0, 8];
  }

  /** A price of 12.3400 at scale 4. */
  lemma FixedScalePrice(nfc: Normalizer)
    requires nfc("strategy.price") == Ascii("strategy.price")
    ensures CanonicalForm(nfc, "strategy.price", Fixed("12.3400", 4))
         == Ascii("SCV3") + [1] + FramedAs('D', Ascii("strategy.price"))
              + [0x64, 0, 0, 0, 8, 4, 0x31, 0x32, 0x2E, 0x33, 0x34, 0x30, 0x30]
  {
    assert Ascii("D") == [68] && Ascii("SCV3") == [83, 67, 86, 51];
    assert Ascii("12.3400") == [0x31, 0x32, 0x2E, 0x33, 0x34, 0x30, 0x30];
    assert Be32(8) == [0, 0, 0, 8];
  }

  /** The corpus refuses a point without digits at scale zero, digits that miss their scale, and a negative
      zero. */
  lemma RefusedPrices()
    ensures FixedError("1.234", 2) == Some(InvalidDecimal) && FixedError("1.", 0) == Some(InvalidDecimal)
    ensures FixedError("-0.00", 2) == Some(InvalidNormalization)
    ensures FixedError("12.3400", 4) == None
  {
    assert PointAt("1.234") == 1 && PointAt("1.") == 1 && PointAt("0.00") == 1 && PointAt("12.3400") == 2;
    assert Magnitude("-0.00") == "0.00";
    assert "1.234"[2..] == "234" && "0.00"[2..] == "00" && "12.3400"[3..] == "3400";
    assert "0.00"[..1] == "0" && "12.3400"[..2] == "12" && "1."[..1] == "1" && "1.234"[..1] == "1";
  }
}
