/** `populate` and `setField` in their own form: they fill the cells of a struct in place. */
module ConfigLoad {
  import opened Wrappers
  import opened EnvText
  import opened ConfigSchema
  import opened ConfigMeaning

  /** setField: writes the parsed value into the cell, or leaves the cell alone and reports why. */
  method SetField(ps: Parsers, kind: Kind, text: string, store: array<Value>, slot: nat) returns (err: Option<Cause>)
    requires slot < store.Length
    modifies store
    ensures var r := Parse(ps, kind, text);
            if r.Ok? then err == None && store[..] == old(store[..])[slot := r.value]
            else err == Some(r.cause) && store[..] == old(store[..])
    // in terms of the text alone
    ensures err.None? ==> Represents(ps, kind, text, store[slot])
    ensures err.Some? ==> !Representable(ps, kind, text)
    decreases kind, 0
  {
    Meaning(ps, kind, text, Parse(ps, kind, text));
    match kind {
      case StringKind =>
        store[slot] := Str(text);
      case IntKind(bits) =>
        var r := ps.parseInt(text);
        if r.None? { return Some(BadSyntax); }
        if !FitsInt(bits, r.value) { return Some(Overflow); }
        store[slot] := Int(r.value);
      case DurationKind =>
        var r := ps.parseDuration(text);
        if r.None? { return Some(BadSyntax); }
        store[slot] := Int(r.value);
      case UintKind(bits) =>
        var r := ps.parseUint(text);
        if r.None? { return Some(BadSyntax); }
        if !FitsUint(bits, r.value) { return Some(Overflow); }
        store[slot] := Uint(r.value);
      case BoolKind =>
        var r := ps.parseBool(text);
        if r.None? { return Some(BadSyntax); }
        store[slot] := Bool(r.value);
      case FloatKind(bits) =>
        var r := ps.parseFloat(text);
        if r.None? { return Some(BadSyntax); }
        if bits == 32 && ps.overflows32(r.value) { return Some(Overflow); }
        store[slot] := Float(if bits == 32 then ps.round32(r.value) else r.value);
      case SliceKind(elem) =>
        var elems, bad := ParseSegments(ps, elem, Split(text));
        if bad.Some? { return bad; }
        store[slot] := List(elems);
      case OtherKind =>
        return Some(Unsupported);
    }
    return None;
  }

  lemma Meaning(ps: Parsers, kind: Kind, text: string, p: Parsed<Value>)
    requires p == Parse(ps, kind, text)
    ensures p.Ok? ==> Represents(ps, kind, text, p.value)
    ensures p.Bad? ==> !Representable(ps, kind, text)
  {
    ParsesIff(ps, kind, text, p);
    if p.Ok? {
      ParseIsRepresentation(ps, kind, text, p, p.value);
    }
  }

  /** The loop of setField over the comma-separated parts; blank parts are skipped. */
  method ParseSegments(ps: Parsers, elem: Kind, parts: seq<string>) returns (elems: seq<Value>, err: Option<Cause>)
    ensures var r := ParseAll(ParserOf(ps, elem), Trimmed(ps.isSpace, parts));
            if r.Ok? then err == None && elems == r.value else err == Some(r.cause)
    decreases elem, 2
  {
    elems := [];
    ghost var total := ParseAll(ParserOf(ps, elem), Trimmed(ps.isSpace, parts));
    ghost var todo := Trimmed(ps.isSpace, parts);
    assert parts[0..] == parts;
    AfterNothing(total);
    for i := 0 to |parts|
      invariant todo == Trimmed(ps.isSpace, parts[i..])
      invariant total == After(elems, ParseAll(ParserOf(ps, elem), todo))
    {
      TrimmedStep(ps.isSpace, parts, i);
      var part := Trim(ps.isSpace, parts[i]);
      if part == "" { continue; }
      ghost var rest := Trimmed(ps.isSpace, parts[i + 1..]);
      OneSegment(ParserOf(ps, elem), elems, part, rest);
      elems, err := AppendSegment(ps, elem, part, elems);
      if err.Some? { return; }
      todo := rest;
    }
    assert parts[|parts|..] == [];
    err := None;
  }

  /** Sets a new element and appends it. */
  method AppendSegment(ps: Parsers, elem: Kind, part: string, slice: seq<Value>)
    returns (longer: seq<Value>, err: Option<Cause>)
    ensures var r := Parse(ps, elem, part);
            if r.Ok? then err == None && longer == slice + [r.value] else err == Some(r.cause)
    decreases elem, 1
  {
    var cell := new Value[1](_ => Opaque);
    err := SetField(ps, elem, part, cell, 0);
    longer := slice + [cell[..][0]];
  }

  /** The parse of a list whose first elements are done. */
  function After(done: seq<Value>, rest: Parsed<seq<Value>>): Parsed<seq<Value>> {
    if rest.Ok? then Ok(done + rest.value) else rest
  }

  lemma AfterNothing(rest: Parsed<seq<Value>>)
    ensures After([], rest) == rest
  {
    if rest.Ok? { assert [] + rest.value == rest.value; }
  }

  lemma TrimmedStep(space: char -> bool, parts: seq<string>, i: nat)
    requires i < |parts|
    ensures var part, rest := Trim(space, parts[i]), Trimmed(space, parts[i + 1..]);
            Trimmed(space, parts[i..]) == if part == [] then rest else [part] + rest
  {
    assert parts[i..][0] == parts[i] && parts[i..][1..] == parts[i + 1..];
  }

  /** One round of the loop over the parts. */
  lemma OneSegment(parse: string -> Parsed<Value>, done: seq<Value>, part: string, rest: seq<string>)
    ensures After(done, ParseAll(parse, [part] + rest)) ==
            var first := parse(part);
            if first.Ok? then After(done + [first.value], ParseAll(parse, rest)) else Bad(first.cause)
  {
    var first, tail := parse(part), ParseAll(parse, rest);
    assert ([part] + rest)[1..] == rest;
    if first.Ok? && tail.Ok? {
      assert done + ([first.value] + tail.value) == done + [first.value] + tail.value;
    }
  }

  /** The cells of a freshly allocated struct. */
  method ZeroFill(fields: seq<Field>, store: array<Value>)
    requires Fits(Slots(fields), store.Length)
    modifies store
    ensures store[..] == Zeroed(fields, old(store[..]))
    decreases fields
  {
    for i := 0 to |fields|
      invariant Fits(Slots(fields[i..]), store.Length)
      invariant Zeroed(fields, old(store[..])) == Zeroed(fields[i..], store[..])
    {
      assert fields[i..][0] == fields[i] && fields[i..][1..] == fields[i + 1..];
      assert FieldSlots(fields[i]) <= Slots(fields[i..]);
      match fields[i] {
        case Leaf(_, _, _, kind, slot) =>
          assert slot in FieldSlots(fields[i]);
          store[slot] := ZeroOf(kind);
        case Nested(_, inner) =>
          ZeroFill(inner, store);
        case Pointer(_, slot, inner) =>
          assert slot in FieldSlots(fields[i]);
          store[slot] := Nil;
          ZeroFill(inner, store);
      }
    }
    assert fields[|fields|..] == [];
  }

  /** populate: one field after the other, descending into structs and allocating nil pointers. */
  method PopulateInPlace(ps: Parsers, env: map<string, string>, fields: seq<Field>, store: array<Value>)
    returns (err: Option<Failure>)
    requires Fits(Slots(fields), store.Length)
    modifies store
    ensures Outcome(store[..], err) == Populate(ps, env, fields, old(store[..]))
    decreases fields
  {
    for i := 0 to |fields|
      invariant Fits(Slots(fields[i..]), store.Length)
      invariant Populate(ps, env, fields, old(store[..])) == Populate(ps, env, fields[i..], store[..])
    {
      var f := fields[i];
      assert fields[i..][0] == f && fields[i..][1..] == fields[i + 1..];
      assert FieldSlots(f) <= Slots(fields[i..]);
      if !f.settable {
        continue;
      }
      match f {
        case Nested(_, inner) =>
          err := PopulateInPlace(ps, env, inner, store);
          if err.Some? { return; }
        case Pointer(_, slot, inner) =>
          assert slot in FieldSlots(f);
          if store[slot] == Nil {
            store[slot] := Allocated;
            ZeroFill(inner, store);
          }
          err := PopulateInPlace(ps, env, inner, store);
          if err.Some? { return; }
        case Leaf(_, _, _, kind, slot) =>
          assert slot in FieldSlots(f);
          var text := Lookup(env, f);
          if text.None? { continue; }
          var bad := SetField(ps, kind, text.value, store, slot);
          if bad.Some? { return Some(Failure(slot, bad.value)); }
      }
    }
    assert fields[|fields|..] == [];
    err := None;
  }
}
