/**
 The canonical encoder: it appends to one buffer and patches each list's and map's length once its
 items are written.
 */
module Encoder {
  import opened Wrappers
  import opened Digits
  import opened Canonical

  class Encoder {
    var output: seq<byte>

    ghost predicate Valid()
      reads this
    {
      |output| <= MAX_CANONICAL_BYTES
    }

    constructor ()
      ensures Valid() && output == []
    {
      output := [];
    }

    /** Appends within the profile bound, or not at all. */
    method Append(value: seq<byte>) returns (error: Option<CanonicalError>)
      requires Valid()
      modifies this
      ensures Valid()
      ensures error == if |old(output)| + |value| <= MAX_CANONICAL_BYTES then None else Some(CanonicalOverflow)
      ensures output == if error.None? then old(output) + value else old(output)
    {
      if |value| > MAX_CANONICAL_BYTES - |output| {
        return Some(CanonicalOverflow);
      }
      output := output + value;
      return None;
    }

    method Frame(tag: byte, payload: seq<byte>) returns (error: Option<CanonicalError>)
      requires Valid()
      modifies this
      ensures Valid()
      ensures error == if |old(output)| + |Framed(tag, payload)| <= MAX_CANONICAL_BYTES then None
          else Some(CanonicalOverflow)
      ensures error.None? ==> output == old(output) + Framed(tag, payload)
    {
      hide Be32;
      error := Append([tag]);
      if error.Some? {
        return;
      }
      error := Append(Be32(|payload|));
      if error.Some? {
        return;
      }
      error := Append(payload);
    }

    /** Writes a tag and room for the length; returns where that is. */
    method BeginFrame(tag: byte) returns (error: Option<CanonicalError>, offset: nat)
      requires Valid()
      modifies this
      ensures Valid()
      ensures error == if |old(output)| + 5 <= MAX_CANONICAL_BYTES then None else Some(CanonicalOverflow)
      ensures error.None? ==> offset == |old(output)| + 1 && output == old(output) + [tag] + [0, 0, 0, 0]
    {
      offset := 0;
      error := Append([tag]);
      if error.Some? {
        return;
      }
      offset := |output|;
      error := Append([0, 0, 0, 0]);
    }

    /** Patches the length of the frame begun at `offset`. */
    method EndFrame(offset: nat, ghost before: seq<byte>, ghost tag: byte, ghost payload: seq<byte>)
      requires Valid() && offset == |before| + 1 && output == before + [tag] + [0, 0, 0, 0] + payload
      modifies this
      ensures Valid() && output == before + Framed(tag, payload)
    {
      hide Be32;
      var length := |output| - offset - 4;
      Patched(before, tag, payload, output);
      output := output[..offset] + Be32(length) + output[offset + 4..];
    }

    /** Whether `v`, at `depth`, encodes into the room left. */
    ghost predicate Fits(nfc: Normalizer, v: Value, depth: nat)
      reads this
    {
      Sound(nfc, v) && depth + Depth(v) <= MAX_CANONICAL_NESTING && |output| + |Encoding(nfc, v)| <= MAX_CANONICAL_BYTES
    }

    /** What an error of encoding `v` at `depth` after `before` bytes says. */
    ghost predicate Explains(error: CanonicalError, nfc: Normalizer, v: Value, depth: nat, before: nat) {
      match error
      case NestingOverflow => depth + Depth(v) > MAX_CANONICAL_NESTING
      case CanonicalOverflow => before + |Encoding(nfc, v)| > MAX_CANONICAL_BYTES || !Sound(nfc, v)
      case InvalidDomain => false
      case _ => !Sound(nfc, v)
    }

    /** Encodes a value: exactly when it nests and fits, exactly its encoding. */
    method Encode(nfc: Normalizer, v: Value, depth: nat) returns (error: Option<CanonicalError>)
      requires Valid()
      modifies this
      ensures Valid()
      ensures error.None? <==> old(Fits(nfc, v, depth))
      ensures error.None? ==> output == old(output) + Encoding(nfc, v)
      ensures error.Some? ==> Explains(error.value, nfc, v, depth, |old(output)|)
      decreases v, 1
    {
      hide Framed;
      if depth > MAX_CANONICAL_NESTING {
        return Some(NestingOverflow);
      }
      match v {
        case Null => error := Frame(110, []);
        case Bool(b) =>
          assert Payload(nfc, v) == if b then [49] else [48];
          error := Frame(98, if b then [49] else [48]);
        case Integer(n) =>
          assert Payload(nfc, v) == Ascii(Signed(n));
          error := Frame(105, Ascii(Signed(n)));
        case Text(text) => error := EncodeText(nfc, v);
        case Bytes(bytes) => error := Frame(120, bytes);
        case Fixed(digits, scale) => error := EncodeFixed(nfc, v);
        case EpochNanoseconds(ns) => error := Frame(116, Be64(ns));
        case List(items) => error := EncodeList(nfc, v, depth);
        case Mapping(entries) => error := EncodeMapping(nfc, v, depth);
      }
    }

    method EncodeText(nfc: Normalizer, v: Value) returns (error: Option<CanonicalError>)
      requires Valid() && v.Text?
      modifies this
      ensures Valid()
      ensures error == if Sound(nfc, v) && |old(output)| + |Encoding(nfc, v)| <= MAX_CANONICAL_BYTES then None
                       else Some(CanonicalOverflow)
      ensures error.None? ==> output == old(output) + Encoding(nfc, v)
    {
      hide Framed;
      var normalized, failed := Normalized(nfc, v.text);
      if failed.Some? {
        return failed;
      }
      error := Frame(115, normalized);
    }

    method EncodeFixed(nfc: Normalizer, v: Value) returns (error: Option<CanonicalError>)
      requires Valid() && v.Fixed?
      modifies this
      ensures Valid()
      ensures !Sound(nfc, v) ==> error == FixedError(v.digits, v.scale)
      ensures Sound(nfc, v) ==>
        error == if |old(output)| + |Encoding(nfc, v)| <= MAX_CANONICAL_BYTES then None else Some(CanonicalOverflow)
      ensures error.None? ==> output == old(output) + Encoding(nfc, v)
    {
      hide Be32, Ascii, FixedError, Framed;
      error := FixedError(v.digits, v.scale);
      if error.Some? {
        return;
      }
      var offset;
      error, offset := BeginFrame(100);
      if error.Some? {
        return;
      }
      ghost var begun := output;
      error := Append([(v.scale % 256) as byte]);
      if error.Some? {
        return;
      }
      error := Append(Ascii(v.digits));
      if error.Some? {
        return;
      }
      Associate(begun, [(v.scale % 256) as byte], Ascii(v.digits));
      EndFrame(offset, old(output), 100, Payload(nfc, v));
    }

    method EncodeList(nfc: Normalizer, v: Value, depth: nat) returns (error: Option<CanonicalError>)
      requires Valid() && v.List? && depth <= MAX_CANONICAL_NESTING
      modifies this
      ensures Valid()
      ensures error.None? <==> old(Fits(nfc, v, depth))
      ensures error.None? ==> output == old(output) + Encoding(nfc, v)
      ensures error.Some? ==> Explains(error.value, nfc, v, depth, |old(output)|)
      decreases v, 0
    {
      hide Be32, Framed, Encoding, Items, DeepestItem;
      var items := v.items;
      EncodingOfList(nfc, v);
      var offset;
      error, offset := BeginFrame(108);
      if error.Some? {
        return;
      }
      ghost var begun := output;
      error := Append(Be32(|items|));
      if error.Some? {
        return;
      }
      error := EncodeItems(nfc, items, depth);
      if error.Some? {
        return;
      }
      Associate(begun, Be32(|items|), Items(nfc, items, |items|));
      EndFrame(offset, old(output), 108, Be32(|items|) + Items(nfc, items, |items|));
    }

    /** Encodes a list's items. */
    method EncodeItems(nfc: Normalizer, items: seq<Value>, depth: nat) returns (error: Option<CanonicalError>)
      requires Valid() && depth <= MAX_CANONICAL_NESTING
      modifies this
      ensures Valid()
      ensures error.None? <==>
        && (forall j :: 0 <= j < |items| ==> Sound(nfc, items[j]))
        && depth + DeepestItem(items, |items|) <= MAX_CANONICAL_NESTING
        && |old(output)| + |Items(nfc, items, |items|)| <= MAX_CANONICAL_BYTES
      ensures error.None? ==> output == old(output) + Items(nfc, items, |items|)
      ensures error.Some? ==>
        match error.value
        case NestingOverflow => depth + DeepestItem(items, |items|) > MAX_CANONICAL_NESTING
        case CanonicalOverflow =>
          || |old(output)| + |Items(nfc, items, |items|)| > MAX_CANONICAL_BYTES
          || exists j :: 0 <= j < |items| && !Sound(nfc, items[j])
        case InvalidDomain => false
        case _ => exists j :: 0 <= j < |items| && !Sound(nfc, items[j])
      decreases items
    {
      hide Encoding, Sound, Depth;
      for i := 0 to |items|
        invariant Valid() && output == old(output) + Items(nfc, items, i)
        invariant depth + DeepestItem(items, i) <= MAX_CANONICAL_NESTING
        invariant forall j :: 0 <= j < i ==> Sound(nfc, items[j])
      {
        ItemsGrow(nfc, items, i + 1);
        error := Encode(nfc, items[i], depth + 1);
        if error.Some? {
          return;
        }
      }
      error := None;
    }

    method EncodeMapping(nfc: Normalizer, v: Value, depth: nat) returns (error: Option<CanonicalError>)
      requires Valid() && v.Mapping? && depth <= MAX_CANONICAL_NESTING
      modifies this
      ensures Valid()
      ensures error.None? <==> old(Fits(nfc, v, depth))
      ensures error.None? ==> output == old(output) + Encoding(nfc, v)
      ensures error.Some? ==> Explains(error.value, nfc, v, depth, |old(output)|)
      decreases v, 0
    {
      hide Be32, Framed, Encoding, Entries, DeepestEntry;
      var entries := v.entries;
      EncodingOfMapping(nfc, v);
      var offset;
      error, offset := BeginFrame(109);
      if error.Some? {
        return;
      }
      ghost var begun := output;
      error := Append(Be32(|entries|));
      if error.Some? {
        return;
      }
      error := EncodeEntries(nfc, entries, depth);
      if error.Some? {
        return;
      }
      Associate(begun, Be32(|entries|), Entries(nfc, entries, |entries|));
      EndFrame(offset, old(output), 109, Be32(|entries|) + Entries(nfc, entries, |entries|));
    }

    /** Encodes a map's entries. */
    method EncodeEntries(nfc: Normalizer, entries: seq<Entry>, depth: nat) returns (error: Option<CanonicalError>)
      requires Valid() && depth <= MAX_CANONICAL_NESTING
      modifies this
      ensures Valid()
      ensures error.None? <==>
        && (forall j :: 0 <= j < |entries| ==> Sound(nfc, entries[j].value))
        && depth + DeepestEntry(entries, |entries|) <= MAX_CANONICAL_NESTING
        && |old(output)| + |Entries(nfc, entries, |entries|)| <= MAX_CANONICAL_BYTES
      ensures error.None? ==> output == old(output) + Entries(nfc, entries, |entries|)
      ensures error.Some? ==>
        match error.value
        case NestingOverflow => depth + DeepestEntry(entries, |entries|) > MAX_CANONICAL_NESTING
        case CanonicalOverflow =>
          || |old(output)| + |Entries(nfc, entries, |entries|)| > MAX_CANONICAL_BYTES
          || exists j :: 0 <= j < |entries| && !Sound(nfc, entries[j].value)
        case InvalidDomain => false
        case _ => exists j :: 0 <= j < |entries| && !Sound(nfc, entries[j].value)
      decreases entries
    {
      hide Encoding, Sound, Depth, Framed;
      for i := 0 to |entries|
        invariant Valid() && output == old(output) + Entries(nfc, entries, i)
        invariant depth + DeepestEntry(entries, i) <= MAX_CANONICAL_NESTING
        invariant forall j :: 0 <= j < i ==> Sound(nfc, entries[j].value)
      {
        EntriesGrow(nfc, entries, i + 1);
        ghost var before := output;
        error := Frame(115, entries[i].key);
        if error.Some? {
          return;
        }
        error := Encode(nfc, entries[i].value, depth + 1);
        if error.Some? {
          return;
        }
        assert output == before + Framed(115, entries[i].key) + Encoding(nfc, entries[i].value);
      }
      error := None;
    }

    /** Encodes the profile's header, a framed domain and a value. */
    method EncodeForm(nfc: Normalizer, domain: seq<byte>, v: Value) returns (error: Option<CanonicalError>)
      requires Valid()
      modifies this
      ensures Valid()
      ensures error.None? <==>
        && Sound(nfc, v) && Depth(v) <= MAX_CANONICAL_NESTING
        && |old(output)| + 5 + |Framed(68, domain)| + |Encoding(nfc, v)| <= MAX_CANONICAL_BYTES
      ensures error.None? ==>
        output == old(output) + [83, 67, 86, 51, CANONICAL_PROFILE_VERSION as byte] + Framed(68, domain)
            + Encoding(nfc, v)
      ensures error.Some? ==> !error.value.InvalidDomain?
    {
      hide Framed, Encoding, Depth, Sound;
      error := Append([83, 67, 86, 51]);
      if error.Some? {
        return;
      }
      error := Append([CANONICAL_PROFILE_VERSION as byte]);
      if error.Some? {
        return;
      }
      ghost var header := output;
      assert header == old(output) + [83, 67, 86, 51, CANONICAL_PROFILE_VERSION as byte];
      error := Frame(68, domain);
      if error.Some? {
        return;
      }
      error := Encode(nfc, v, 0);
    }
  }

  /** A frame with its length patched in. */
  lemma Patched(before: seq<byte>, tag: byte, payload: seq<byte>, begun: seq<byte>)
    requires begun == before + [tag] + [0, 0, 0, 0] + payload
    ensures var offset := |before| + 1;
            begun[..offset] + Be32(|payload|) + begun[offset + 4..] == before + Framed(tag, payload)
  {
    hide Be32;
    var offset := |before| + 1;
    assert begun[..offset] == before + [tag];
    assert begun[offset + 4..] == payload;
  }

  lemma Associate(a: seq<byte>, b: seq<byte>, c: seq<byte>)
    ensures a + b + c == a + (b + c)
  {
  }

  /** Text in normal form, within its bound. */
  method Normalized(nfc: Normalizer, text: string) returns (bytes: seq<byte>, error: Option<CanonicalError>)
    ensures error == if |text| <= MAX_CANONICAL_BYTES && |nfc(text)| <= MAX_CANONICAL_BYTES then None
        else Some(CanonicalOverflow)
    ensures error.None? ==> bytes == nfc(text)
  {
    bytes := nfc(text);
    error := if |text| > MAX_CANONICAL_BYTES || |bytes| > MAX_CANONICAL_BYTES then Some(CanonicalOverflow) else None;
  }

  lemma EncodingOfList(nfc: Normalizer, v: Value)
    requires v.List?
    ensures Encoding(nfc, v) == Framed(108, Be32(|v.items|) + Items(nfc, v.items, |v.items|))
    ensures |Encoding(nfc, v)| == 9 + |Items(nfc, v.items, |v.items|)|
    ensures Depth(v) == DeepestItem(v.items, |v.items|)
  {
    hide Be32;
  }

  lemma EncodingOfMapping(nfc: Normalizer, v: Value)
    requires v.Mapping?
    ensures Encoding(nfc, v) == Framed(109, Be32(|v.entries|) + Entries(nfc, v.entries, |v.entries|))
    ensures |Encoding(nfc, v)| == 9 + |Entries(nfc, v.entries, |v.entries|)|
    ensures Depth(v) == DeepestEntry(v.entries, |v.entries|)
  {
    hide Be32;
  }

  lemma {:induction false} ItemsGrow(nfc: Normalizer, items: seq<Value>, n: nat)
    requires n <= |items|
    ensures |Items(nfc, items, n)| <= |Items(nfc, items, |items|)|
        && DeepestItem(items, n) <= DeepestItem(items, |items|)
    decreases |items| - n
  {
    if n < |items| {
      ItemsGrow(nfc, items, n + 1);
    }
  }

  lemma {:induction false} EntriesGrow(nfc: Normalizer, entries: seq<Entry>, n: nat)
    requires n <= |entries|
    ensures |Entries(nfc, entries, n)| <= |Entries(nfc, entries, |entries|)|
    ensures DeepestEntry(entries, n) <= DeepestEntry(entries, |entries|)
    decreases |entries| - n
  {
    if n < |entries| {
      EntriesGrow(nfc, entries, n + 1);
    }
  }

  // ---------------------------------------------------------------------------------------
  // Canonical bytes
  // ---------------------------------------------------------------------------------------

  /** The canonical bytes of a value in a domain: exactly when there are such, exactly its form. */
  method CanonicalBytes(nfc: Normalizer, domain: string, v: Value) returns (r: Result<seq<byte>, CanonicalError>)
    requires Constructed(nfc, v)
    ensures r.Success? <==> HasCanonicalBytes(nfc, domain, v)
    ensures r.Success? ==> r.value == CanonicalForm(nfc, domain, v)
    ensures r == Result.Failure(InvalidDomain) <==>
              |domain| <= MAX_CANONICAL_BYTES && |nfc(domain)| <= MAX_CANONICAL_BYTES && !ValidDomain(nfc, domain)
  {
    hide Framed, Constructed, Depth, Encoding, Sound;
    ConstructedIsSound(nfc, v);
    var normalized, error := Normalized(nfc, domain);
    if error.Some? {
      return Result.Failure(error.value);
    }
    if |normalized| == 0 || |normalized| > MAX_DOMAIN_BYTES {
      return Result.Failure(InvalidDomain);
    }
    var encoder := new Encoder();
    error := encoder.EncodeForm(nfc, normalized, v);
    if error.Some? {
      return Result.Failure(error.value);
    }
    assert encoder.output == CanonicalForm(nfc, domain, v);
    return Success(encoder.output);
  }
}
