/** What `populate` makes of a struct, kind by kind, in terms of the environment and the texts alone. */
module ConfigMeaning {
  import opened Wrappers
  import opened EnvText
  import opened ConfigSchema
  import opened ConfigTheorems
  import Float64

  /** The text stands for the value in a field of the kind. */
  ghost predicate Represents(ps: Parsers, kind: Kind, text: string, v: Value)
    decreases kind, 0
  {
    match kind
    case StringKind => v == Str(text)
    case IntKind(bits) => v.Int? && ps.parseInt(text) == Some(v.i) && InRange(bits, v.i)
    case DurationKind => v.Int? && ps.parseDuration(text) == Some(v.i)
    case UintKind(bits) => v.Uint? && ps.parseUint(text) == Some(v.u) && 0 <= v.u < Float64.Pow2(bits)
    case BoolKind => v.Bool? && ps.parseBool(text) == Some(v.b)
    case FloatKind(bits) =>
      && v.Float? && ps.parseFloat(text).Some?
      && var wide := ps.parseFloat(text).value;
         if bits == 32 then !ps.overflows32(wide) && v.pattern == ps.round32(wide) else v.pattern == wide
    case SliceKind(elem) => v.List? && EachRepresents(ps, elem, Trimmed(ps.isSpace, Split(text)), v.elems)
    case OtherKind => false
  }

  /** The text stands for some value of the kind. */
  ghost predicate Representable(ps: Parsers, kind: Kind, text: string) {
    exists v :: Represents(ps, kind, text, v)
  }

  ghost predicate EachRepresents(ps: Parsers, elem: Kind, segments: seq<string>, values: seq<Value>)
    decreases elem, 1
  {
    |values| == |segments| && forall i :: 0 <= i < |segments| ==> Represents(ps, elem, segments[i], values[i])
  }

  /** The signed integers of a width. */
  predicate InRange(bits: nat, i: int) {
    bits > 0 && 0 - Float64.Pow2(bits - 1) as int <= i < Float64.Pow2(bits - 1)
  }

  /** The text that a leaf is set to: that of its variable if the variable exists, else a default that is
      not empty; without an env tag there is none. */
  predicate HasText(env: map<string, string>, leaf: Field, text: string)
    requires leaf.Leaf?
  {
    leaf.env != "" &&
    if leaf.env in env then text == env[leaf.env] else leaf.fallback != "" && text == leaf.fallback
  }

  lemma LookupIsText(env: map<string, string>, leaf: Field, text: string)
    requires leaf.Leaf?
    ensures Lookup(env, leaf) == Some(text) <==> HasText(env, leaf, text)
  {
  }

  // ---------------------------------------------------------------------------------------------
  // setField computes the value that the text stands for
  // ---------------------------------------------------------------------------------------------

  lemma ListIsParsed(ps: Parsers, kind: Kind, text: string, p: Parsed<Value>, w: Parsed<seq<Value>>)
    requires kind.SliceKind? && p == Parse(ps, kind, text)
    requires w == ParseAll(ParserOf(ps, kind.elem), Trimmed(ps.isSpace, Split(text))) && w.Ok?
    ensures p == Ok(List(w.value))
  {
  }

  lemma {:induction false} ParseIsRepresentation(ps: Parsers, kind: Kind, text: string, p: Parsed<Value>, v: Value)
    requires p == Parse(ps, kind, text)
    ensures p == Ok(v) <==> Represents(ps, kind, text, v)
    decreases kind, 0
  {
    if kind.SliceKind? {
      var segments := Trimmed(ps.isSpace, Split(text));
      if p == Ok(v) {
        ListOfSegments(ps, kind, text, v);
        EachIsRepresented(ps, kind.elem, segments, v.elems);
      }
      if Represents(ps, kind, text, v) {
        EachIsRepresented(ps, kind.elem, segments, v.elems);
        var parse := ParserOf(ps, kind.elem);
        var w := ParseAll(parse, segments);
        ListOfParses(parse, segments);
        ListIsParsed(ps, kind, text, p, w);
        assert w.value == v.elems;
      }
    }
  }

  lemma {:induction false} EachIsRepresented(ps: Parsers, elem: Kind, segments: seq<string>, values: seq<Value>)
    ensures Parses(ParserOf(ps, elem), segments, values) <==> EachRepresents(ps, elem, segments, values)
    decreases elem, 1
  {
    if |values| == |segments| {
      forall i | 0 <= i < |segments|
        ensures ParserOf(ps, elem)(segments[i]) == Ok(values[i]) <==> Represents(ps, elem, segments[i], values[i])
      {
        ParseIsRepresentation(ps, elem, segments[i], Parse(ps, elem, segments[i]), values[i]);
      }
    }
  }

  // ---------------------------------------------------------------------------------------------
  // Theorems
  // ---------------------------------------------------------------------------------------------

  /** After a success every reached leaf that has a text holds the value that the text stands for. */
  lemma LeafHolds(ps: Parsers, env: map<string, string>, fields: seq<Field>, store: seq<Value>, leaf: Field,
                  text: string, r: Outcome)
    requires Fits(Slots(fields), |store|) && NoAliasing(fields)
    requires r == Populate(ps, env, fields, store) && r.err.None?
    requires leaf.Leaf? && Reaches(fields, leaf) && HasText(env, leaf, text)
    ensures leaf.slot < |r.store| && Represents(ps, leaf.kind, text, r.store[leaf.slot])
  {
    LookupIsText(env, leaf, text);
    PopulateSetsLeaves(ps, env, fields, store, leaf);
    ParseIsRepresentation(ps, leaf.kind, text, Parse(ps, leaf.kind, text), r.store[leaf.slot]);
  }

  /** populate succeeds if and only if every such text stands for a value of its leaf's kind. */
  lemma SucceedsIffRepresentable(ps: Parsers, env: map<string, string>, fields: seq<Field>, store: seq<Value>)
    requires Fits(Slots(fields), |store|)
    ensures Populate(ps, env, fields, store).err.None? <==>
            forall leaf: Field, text: string :: leaf.Leaf? && Reaches(fields, leaf) && HasText(env, leaf, text) ==>
              Representable(ps, leaf.kind, text)
  {
    PopulateSucceedsIff(ps, env, fields, store);
    if Populate(ps, env, fields, store).err.None? {
      forall leaf: Field, text: string | leaf.Leaf? && Reaches(fields, leaf) && HasText(env, leaf, text)
        ensures Representable(ps, leaf.kind, text)
      {
        LookupIsText(env, leaf, text);
        ParsesIff(ps, leaf.kind, text, Parse(ps, leaf.kind, text));
      }
    } else {
      var leaf: Field :| leaf.Leaf? && Reaches(fields, leaf) && Lookup(env, leaf).Some? &&
                         !Parse(ps, leaf.kind, Lookup(env, leaf).value).Ok?;
      var text := Lookup(env, leaf).value;
      LookupIsText(env, leaf, text);
      ParsesIff(ps, leaf.kind, text, Parse(ps, leaf.kind, text));
    }
  }

  lemma ParsesIff(ps: Parsers, kind: Kind, text: string, p: Parsed<Value>)
    requires p == Parse(ps, kind, text)
    ensures p.Ok? <==> Representable(ps, kind, text)
  {
    if p.Ok? {
      ParseIsRepresentation(ps, kind, text, p, p.value);
    }
    forall v | Represents(ps, kind, text, v) ensures p.Ok? {
      ParseIsRepresentation(ps, kind, text, p, v);
    }
  }

  /** The scalar kinds one by one: what an outcome of populate, a success or not, and the content v of a
      cell have to do with the text. Text that is no number of the kind, and a number outside the
      field's width, are an error; otherwise a success leaves exactly that number, not truncated,
      clamped or defaulted. */
  predicate ScalarResult(ps: Parsers, kind: Kind, text: string, success: bool, v: Value) {
    match kind
    case IntKind(bits) =>
      var i := ps.parseInt(text);
      if i.Some? && InRange(bits, i.value) then success ==> v == Int(i.value) else !success
    case UintKind(bits) =>
      var u := ps.parseUint(text);
      if u.Some? && 0 <= u.value < Float64.Pow2(bits) then success ==> v == Uint(u.value) else !success
    case FloatKind(bits) =>
      var f := ps.parseFloat(text);
      if f.Some? && (bits == 32 ==> !ps.overflows32(f.value)) then
        success ==> v == Float(if bits == 32 then ps.round32(f.value) else f.value)
      else !success
    case BoolKind =>
      var b := ps.parseBool(text);
      if b.Some? then success ==> v == Bool(b.value) else !success
    case DurationKind =>
      var d := ps.parseDuration(text);
      if d.Some? then success ==> v == Int(d.value) else !success
    case StringKind => success ==> v == Str(text)
    case SliceKind(_) => success ==> v.List?
    case OtherKind => !success
  }

  lemma ScalarFacts(ps: Parsers, kind: Kind, text: string, success: bool, v: Value)
    requires success ==> Represents(ps, kind, text, v)
    ensures ScalarResult(ps, kind, text, success, v)
  {
  }

  /** Every reached leaf with a text, after a success and after an error. */
  lemma ScalarLeaf(ps: Parsers, env: map<string, string>, fields: seq<Field>, store: seq<Value>, leaf: Field,
                   text: string, r: Outcome)
    requires Fits(Slots(fields), |store|) && NoAliasing(fields) && r == Populate(ps, env, fields, store)
    requires leaf.Leaf? && Reaches(fields, leaf) && HasText(env, leaf, text)
    ensures leaf.slot < |r.store|
    ensures ScalarResult(ps, leaf.kind, text, r.err.None?, r.store[leaf.slot])
  {
    ReachedSlot(fields, leaf);
    if r.err.None? {
      LeafHolds(ps, env, fields, store, leaf, text, r);
    }
    ScalarFacts(ps, leaf.kind, text, r.err.None?, r.store[leaf.slot]);
  }

  lemma {:induction false} ReachedSlot(fields: seq<Field>, leaf: Field)
    requires leaf.Leaf? && Reaches(fields, leaf)
    ensures leaf.slot in Slots(fields)
    decreases fields
  {
    if FieldReaches(fields[0], leaf) {
      var f := fields[0];
      if !f.Leaf? {
        ReachedSlot(f.fields, leaf);
      }
    } else {
      ReachedSlot(fields[1..], leaf);
    }
  }

  /** Why a scalar text is refused: the kind is none that setField knows, the text is no number at all, or
      the number is too large for the field. */
  lemma ScalarCause(ps: Parsers, kind: Kind, text: string, p: Parsed<Value>)
    requires !kind.SliceKind? && p == Parse(ps, kind, text) && p.Bad?
    ensures p.cause == Unsupported <==> kind.OtherKind?
    ensures p.cause == Overflow <==>
              || (kind.IntKind? && ps.parseInt(text).Some?)
              || (kind.UintKind? && ps.parseUint(text).Some?)
              || (kind.FloatKind? && ps.parseFloat(text).Some?)
  {
  }

  /** The zero value of a kind is what the text of zero stands for, for parsers that know it. */
  lemma ZeroIsTextOfZero(ps: Parsers, kind: Kind)
    requires ps.parseInt("0") == Some(0) && ps.parseUint("0") == Some(0) && ps.parseFloat("0") == Some(0)
    requires ps.parseDuration("0") == Some(0) && ps.parseBool("false") == Some(false)
    requires ps.round32(0) == 0 && !ps.overflows32(0)
    requires kind.IntKind? ==> kind.bits > 0
    ensures kind.StringKind? || kind.SliceKind? ==> Represents(ps, kind, "", ZeroOf(kind))
    ensures kind.BoolKind? ==> Represents(ps, kind, "false", ZeroOf(kind))
    ensures kind.IntKind? || kind.UintKind? || kind.FloatKind? || kind.DurationKind? ==>
              Represents(ps, kind, "0", ZeroOf(kind))
  {
    if kind.SliceKind? {
      assert Split("") == [""] && [""][1..] == [];
      assert Trim(ps.isSpace, "") == "";
      assert Trimmed(ps.isSpace, [""]) == [];
    }
  }

  /** The fields are populated in order: a struct made of two halves is populated like the first and
      then, unless that failed, like the second. */
  lemma {:induction false} PopulateInFieldOrder(ps: Parsers, env: map<string, string>, a: seq<Field>, b: seq<Field>, store: seq<Value>)
    requires Fits(Slots(a), |store|) && Fits(Slots(b), |store|)
    ensures Fits(Slots(a + b), |store|)
    ensures Populate(ps, env, a + b, store) ==
            var first := Populate(ps, env, a, store);
            if first.err.Some? then first else Populate(ps, env, b, first.store)
    decreases |a|
  {
    if a == [] {
      assert a + b == b;
    } else {
      assert (a + b)[0] == a[0] && (a + b)[1..] == a[1..] + b;
      PopulateInFieldOrder(ps, env, a[1..], b, PopulateField(ps, env, a[0], store).store);
    }
  }
}
