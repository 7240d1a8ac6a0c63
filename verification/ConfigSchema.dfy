/** `config.populate` and `setField` on a finite schema without aliasing. The target struct is a store
    of cells; a schema says which cell each field occupies. */
module ConfigSchema {
  import opened Wrappers
  import opened EnvText
  import Float64

  /** The kinds that setField distinguishes; `Duration` is an int64 with its own parser. */
  datatype Kind =
    | StringKind
    | IntKind(bits: nat)
    | DurationKind
    | UintKind(bits: nat)
    | BoolKind
    | FloatKind(bits: nat)
    | SliceKind(elem: Kind)
    | OtherKind

  /** Cell contents. Floats are kept as bit patterns; `Nil` and `Allocated` are the two states of a
      pointer to a struct; `Opaque` is any value that setField does not produce. */
  datatype Value =
    | Str(s: string)
    | Int(i: int)
    | Uint(u: int)
    | Bool(b: bool)
    | Float(pattern: int)
    | List(elems: seq<Value>)
    | Nil
    | Allocated
    | Opaque

  /** A struct field. `env` and `fallback` are its `env` and `envDefault` tags, empty when absent. */
  datatype Field =
    | Leaf(settable: bool, env: string, fallback: string, kind: Kind, slot: nat)
    | Nested(settable: bool, fields: seq<Field>)
    | Pointer(settable: bool, slot: nat, fields: seq<Field>)

  /** strconv and time.ParseDuration, as partial functions. On a float32 field `overflows32` is
      OverflowFloat and `round32` the conversion that SetFloat makes; `isSpace` is the white space that
      strings.TrimSpace removes. */
  datatype Parsers = Parsers(
    parseInt: string -> Option<int>,
    parseUint: string -> Option<int>,
    parseBool: string -> Option<bool>,
    parseFloat: string -> Option<int>,
    parseDuration: string -> Option<int>,
    overflows32: int -> bool,
    round32: int -> int,
    isSpace: char -> bool)

  datatype Cause = BadSyntax | Overflow | Unsupported

  datatype Parsed<+T> = Ok(value: T) | Bad(cause: Cause)

  /** The error of populate: which cell could not be set, and why. */
  datatype Failure = Failure(slot: nat, cause: Cause)

  datatype Outcome = Outcome(store: seq<Value>, err: Option<Failure>)

  // ---------------------------------------------------------------------------------------------
  // setField
  // ---------------------------------------------------------------------------------------------

  /** `!v.OverflowInt(i)`. */
  predicate FitsInt(bits: nat, i: int) {
    bits > 0 && -(Float64.Pow2(bits - 1) as int) <= i < Float64.Pow2(bits - 1)
  }

  /** `!v.OverflowUint(u)`. */
  predicate FitsUint(bits: nat, u: int) {
    0 <= u < Float64.Pow2(bits)
  }

  /** Two's complement truncation to a width, what an unchecked assignment would do. */
  function Truncated(bits: nat, i: int): int
    requires bits > 0
  {
    (i + Float64.Pow2(bits - 1)) % Float64.Pow2(bits) - Float64.Pow2(bits - 1)
  }

  /** The overflow checks accept exactly the values that survive an assignment to the field's width,
      so nothing is truncated silently. */
  lemma NoSilentTruncation(bits: nat, i: int)
    requires bits > 0
    ensures FitsInt(bits, i) <==> Truncated(bits, i) == i
    ensures FitsUint(bits, i) <==> i % Float64.Pow2(bits) == i
  {
    Halves(i, Float64.Pow2(bits - 1), Float64.Pow2(bits));
    ModFixed(i, Float64.Pow2(bits));
  }

  lemma Halves(i: int, half: int, full: int)
    requires half >= 1 && full == 2 * half
    ensures -half <= i < half <==> (i + half) % full - half == i
  {
    ModFixed(i + half, full);
  }

  lemma ModFixed(a: int, m: int)
    requires m >= 1
    ensures a % m == a <==> 0 <= a < m
  {
  }

  /** The value that setField assigns, if it assigns one. */
  function Parse(ps: Parsers, kind: Kind, text: string): Parsed<Value>
    decreases kind, 0
  {
    match kind
    case StringKind => Ok(Str(text))
    case IntKind(bits) =>
      var r := ps.parseInt(text);
      if r.None? then Bad(BadSyntax) else if FitsInt(bits, r.value) then Ok(Int(r.value)) else Bad(Overflow)
    case DurationKind =>
      var r := ps.parseDuration(text);
      if r.None? then Bad(BadSyntax) else Ok(Int(r.value))
    case UintKind(bits) =>
      var r := ps.parseUint(text);
      if r.None? then Bad(BadSyntax) else if FitsUint(bits, r.value) then Ok(Uint(r.value)) else Bad(Overflow)
    case BoolKind =>
      var r := ps.parseBool(text);
      if r.None? then Bad(BadSyntax) else Ok(Bool(r.value))
    case FloatKind(bits) =>
      var r := ps.parseFloat(text);
      if r.None? then Bad(BadSyntax)
      else if bits == 32 && ps.overflows32(r.value) then Bad(Overflow)
      else Ok(Float(if bits == 32 then ps.round32(r.value) else r.value))
    case SliceKind(elem) => ParseList(ParserOf(ps, elem), Trimmed(ps.isSpace, Split(text)))
    case OtherKind => Bad(Unsupported)
  }

  function ParserOf(ps: Parsers, kind: Kind): string -> Parsed<Value>
    decreases kind, 1
  {
    (text: string) => Parse(ps, kind, text)
  }

  /** Parses the segments in order, stopping at the first that does not parse. */
  function ParseAll(parse: string -> Parsed<Value>, segments: seq<string>): Parsed<seq<Value>> {
    if segments == [] then Ok([])
    else
      var first := parse(segments[0]);
      if first.Bad? then Bad(first.cause)
      else
        var rest := ParseAll(parse, segments[1..]);
        if rest.Bad? then rest else Ok([first.value] + rest.value)
  }

  function ParseList(parse: string -> Parsed<Value>, segments: seq<string>): Parsed<Value> {
    var r := ParseAll(parse, segments);
    if r.Ok? then Ok(List(r.value)) else Bad(r.cause)
  }

  /** The values are the parses of the segments, in order. */
  ghost predicate Parses(parse: string -> Parsed<Value>, segments: seq<string>, values: seq<Value>) {
    |values| == |segments| && forall i :: 0 <= i < |segments| ==> parse(segments[i]) == Ok(values[i])
  }

  /** A list parses exactly when all its segments do, and then holds the parse of each, in order; */
  lemma {:induction false} ListOfParses(parse: string -> Parsed<Value>, segments: seq<string>)
    ensures var r := ParseAll(parse, segments);
            && (r.Ok? <==> forall i :: 0 <= i < |segments| ==> parse(segments[i]).Ok?)
            && (r.Ok? ==> Parses(parse, segments, r.value))
  {
    if segments != [] {
      var rest := segments[1..];
      ListOfParses(parse, rest);
      if forall i :: 0 <= i < |segments| ==> parse(segments[i]).Ok? {
        forall i | 0 <= i < |rest| ensures parse(rest[i]).Ok? {
          assert rest[i] == segments[i + 1];
        }
      }
    }
  }

  /** it fails with the cause of its first bad segment. */
  lemma {:induction false} FirstBadSegment(parse: string -> Parsed<Value>, segments: seq<string>, n: nat)
    requires n < |segments| && parse(segments[n]).Bad?
    requires forall j :: 0 <= j < n ==> parse(segments[j]).Ok?
    ensures ParseAll(parse, segments) == Bad(parse(segments[n]).cause)
    decreases n
  {
    if n > 0 {
      FirstBadSegment(parse, segments[1..], n - 1);
    }
  }

  lemma ListValue(ps: Parsers, kind: Kind, text: string, v: Value, w: Parsed<seq<Value>>)
    requires kind.SliceKind? && Ok(v) == Parse(ps, kind, text)
    requires w == ParseAll(ParserOf(ps, kind.elem), Trimmed(ps.isSpace, Split(text)))
    ensures w.Ok? && v == List(w.value)
  {
  }

  /** A list value has one element per trimmed non-blank comma segment of its text, in order. */
  lemma ListOfSegments(ps: Parsers, kind: Kind, text: string, v: Value)
    requires kind.SliceKind? && Ok(v) == Parse(ps, kind, text)
    ensures v.List? && Parses(ParserOf(ps, kind.elem), Trimmed(ps.isSpace, Split(text)), v.elems)
  {
    var parse, segments := ParserOf(ps, kind.elem), Trimmed(ps.isSpace, Split(text));
    ListValue(ps, kind, text, v, ParseAll(parse, segments));
    ListOfParses(parse, segments);
  }

  // ---------------------------------------------------------------------------------------------
  // populate
  // ---------------------------------------------------------------------------------------------

  /** The text a leaf is set to: the environment's, even if empty, else a non-empty default. */
  function Lookup(env: map<string, string>, f: Field): Option<string>
    requires f.Leaf?
  {
    if f.env == "" then None
    else if f.env in env then Some(env[f.env])
    else if f.fallback == "" then None
    else Some(f.fallback)
  }

  function ZeroOf(kind: Kind): Value {
    match kind
    case StringKind => Str("")
    case IntKind(_) => Int(0)
    case DurationKind => Int(0)
    case UintKind(_) => Uint(0)
    case BoolKind => Bool(false)
    case FloatKind(_) => Float(0)
    case SliceKind(_) => List([])
    case OtherKind => Opaque
  }

  /** The cells of a struct, including those behind its pointers. */
  ghost function Slots(fields: seq<Field>): set<nat>
    decreases fields
  {
    if fields == [] then {}
    else FieldSlots(fields[0]) + Slots(fields[1..])
  }

  ghost function FieldSlots(f: Field): set<nat>
    decreases f
  {
    match f
    case Leaf(_, _, _, _, slot) => {slot}
    case Nested(_, inner) => Slots(inner)
    case Pointer(_, slot, inner) => {slot} + Slots(inner)
  }

  ghost predicate Fits(slots: set<nat>, size: nat) {
    forall s :: s in slots ==> s < size
  }

  /** No two fields share a cell. */
  ghost predicate NoAliasing(fields: seq<Field>)
    decreases fields
  {
    fields == [] ||
    (FieldNoAliasing(fields[0]) && NoAliasing(fields[1..]) && FieldSlots(fields[0]) !! Slots(fields[1..]))
  }

  ghost predicate FieldNoAliasing(f: Field)
    decreases f
  {
    match f
    case Leaf(_, _, _, _, _) => true
    case Nested(_, inner) => NoAliasing(inner)
    case Pointer(_, slot, inner) => NoAliasing(inner) && slot !in Slots(inner)
  }

  /** The zero value of a struct, as `reflect.New` makes it. */
  function Zeroed(fields: seq<Field>, store: seq<Value>): (r: seq<Value>)
    requires Fits(Slots(fields), |store|)
    ensures |r| == |store|
    decreases fields
  {
    if fields == [] then store else Zeroed(fields[1..], ZeroedField(fields[0], store))
  }

  function ZeroedField(f: Field, store: seq<Value>): (r: seq<Value>)
    requires Fits(FieldSlots(f), |store|)
    ensures |r| == |store|
    decreases f
  {
    match f
    case Leaf(_, _, _, kind, slot) =>
      assert slot in FieldSlots(f);
      store[slot := ZeroOf(kind)]
    case Nested(_, inner) => Zeroed(inner, store)
    case Pointer(_, slot, inner) =>
      assert slot in FieldSlots(f);
      Zeroed(inner, store[slot := Nil])
  }

  /** populate, field by field. */
  function Populate(ps: Parsers, env: map<string, string>, fields: seq<Field>, store: seq<Value>): (r: Outcome)
    requires Fits(Slots(fields), |store|)
    ensures |r.store| == |store|
    decreases fields
  {
    if fields == [] then Outcome(store, None)
    else
      var first := PopulateField(ps, env, fields[0], store);
      if first.err.Some? then first else Populate(ps, env, fields[1..], first.store)
  }

  function PopulateField(ps: Parsers, env: map<string, string>, f: Field, store: seq<Value>): (r: Outcome)
    requires Fits(FieldSlots(f), |store|)
    ensures |r.store| == |store|
    decreases f
  {
    if !f.settable then Outcome(store, None)
    else match f
      case Leaf(_, _, _, kind, slot) =>
        assert slot in FieldSlots(f);
        var text := Lookup(env, f);
        if text.None? then Outcome(store, None)
        else
          var v := Parse(ps, kind, text.value);
          if v.Ok? then Outcome(store[slot := v.value], None) else Outcome(store, Some(Failure(slot, v.cause)))
      case Nested(_, inner) => Populate(ps, env, inner, store)
      case Pointer(_, slot, inner) =>
        assert slot in FieldSlots(f);
        assert Fits(Slots(inner), |store|);
        var target := if store[slot] == Nil then Zeroed(inner, store[slot := Allocated]) else store;
        Populate(ps, env, inner, target)
  }
}
