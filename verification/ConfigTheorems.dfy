/** What `populate` does, for every finite schema: the recursive traversal is the linear execution of
    a list of allocations and assignments that depends on the schema and the environment alone. */
module ConfigTheorems {
  import opened Wrappers
  import opened EnvText
  import opened ConfigSchema

  datatype Op =
    | Alloc(slot: nat, fields: seq<Field>)
    | Assign(slot: nat, kind: Kind, text: string)

  /** The operations of populate in traversal order, at any depth. */
  function Program(env: map<string, string>, fields: seq<Field>): seq<Op>
    decreases fields
  {
    if fields == [] then [] else FieldProgram(env, fields[0]) + Program(env, fields[1..])
  }

  function FieldProgram(env: map<string, string>, f: Field): seq<Op>
    decreases f
  {
    if !f.settable then []
    else match f
      case Leaf(_, _, _, kind, slot) =>
        var text := Lookup(env, f);
        if text.None? then [] else [Assign(slot, kind, text.value)]
      case Nested(_, inner) => Program(env, inner)
      case Pointer(_, slot, inner) => [Alloc(slot, inner)] + Program(env, inner)
  }

  /** The cells an operation may write. */
  ghost function Writes(op: Op): set<nat> {
    if op.Alloc? then {op.slot} + Slots(op.fields) else {op.slot}
  }

  ghost predicate AllFit(ops: seq<Op>, size: nat) {
    forall i :: 0 <= i < |ops| ==> Fits(Writes(ops[i]), size)
  }

  /** One operation; an allocated pointer is not allocated again. */
  function Step(ps: Parsers, op: Op, store: seq<Value>): (r: Outcome)
    requires Fits(Writes(op), |store|)
    ensures |r.store| == |store|
  {
    match op
    case Alloc(slot, fields) =>
      assert slot in Writes(op);
      if store[slot] == Nil then Outcome(Zeroed(fields, store[slot := Allocated]), None)
      else Outcome(store, None)
    case Assign(slot, kind, text) =>
      assert slot in Writes(op);
      var v := Parse(ps, kind, text);
      if v.Ok? then Outcome(store[slot := v.value], None) else Outcome(store, Some(Failure(slot, v.cause)))
  }

  /** Runs the operations in order, up to the first failure. */
  function Exec(ps: Parsers, ops: seq<Op>, store: seq<Value>): (r: Outcome)
    requires AllFit(ops, |store|)
    ensures |r.store| == |store|
  {
    if ops == [] then Outcome(store, None)
    else
      var first := Step(ps, ops[0], store);
      if first.err.Some? then first else Exec(ps, ops[1..], first.store)
  }

  lemma {:induction false} ExecConcat(ps: Parsers, a: seq<Op>, b: seq<Op>, store: seq<Value>)
    requires AllFit(a, |store|) && AllFit(b, |store|)
    ensures AllFit(a + b, |store|)
    ensures Exec(ps, a + b, store) ==
            var first := Exec(ps, a, store);
            if first.err.Some? then first else Exec(ps, b, first.store)
  {
    if a == [] {
      assert a + b == b;
    } else {
      assert (a + b)[1..] == a[1..] + b;
      ExecConcat(ps, a[1..], b, Step(ps, a[0], store).store);
    }
  }

  lemma {:induction false} ProgramWrites(env: map<string, string>, fields: seq<Field>)
    ensures forall i :: 0 <= i < |Program(env, fields)| ==> Writes(Program(env, fields)[i]) <= Slots(fields)
    decreases fields, 1
  {
    if fields != [] {
      FieldProgramWrites(env, fields[0]);
      ProgramWrites(env, fields[1..]);
    }
  }

  lemma {:induction false} FieldProgramWrites(env: map<string, string>, f: Field)
    ensures forall i :: 0 <= i < |FieldProgram(env, f)| ==> Writes(FieldProgram(env, f)[i]) <= FieldSlots(f)
    decreases f, 0
  {
    if !f.Leaf? {
      ProgramWrites(env, f.fields);
    }
  }

  /** The traversal refines the linear program. */
  lemma {:induction false} PopulateIsExec(ps: Parsers, env: map<string, string>, fields: seq<Field>, store: seq<Value>)
    requires Fits(Slots(fields), |store|)
    ensures AllFit(Program(env, fields), |store|)
    ensures Populate(ps, env, fields, store) == Exec(ps, Program(env, fields), store)
    decreases fields, 1
  {
    ProgramWrites(env, fields);
    if fields != [] {
      PopulateFieldIsExec(ps, env, fields[0], store);
      ProgramWrites(env, fields[1..]);
      ExecConcat(ps, FieldProgram(env, fields[0]), Program(env, fields[1..]), store);
      PopulateIsExec(ps, env, fields[1..], PopulateField(ps, env, fields[0], store).store);
    }
  }

  lemma {:induction false} PopulateFieldIsExec(ps: Parsers, env: map<string, string>, f: Field, store: seq<Value>)
    requires Fits(FieldSlots(f), |store|)
    ensures AllFit(FieldProgram(env, f), |store|)
    ensures PopulateField(ps, env, f, store) == Exec(ps, FieldProgram(env, f), store)
    decreases f, 0
  {
    FieldProgramWrites(env, f);
    if f.settable {
      match f
      case Leaf(_, _, _, kind, slot) =>
        if Lookup(env, f).Some? {
          assert FieldProgram(env, f)[1..] == [];
        }
      case Nested(_, inner) => PopulateIsExec(ps, env, inner, store);
      case Pointer(_, slot, inner) =>
        var alloc := Alloc(slot, inner);
        var ops := [alloc] + Program(env, inner);
        assert ops[1..] == Program(env, inner);
        assert Writes(ops[0]) <= FieldSlots(f);
        PopulateIsExec(ps, env, inner, Step(ps, alloc, store).store);
    }
  }

  // ---------------------------------------------------------------------------------------------
  // Frames
  // ---------------------------------------------------------------------------------------------

  lemma {:induction false} ZeroedFrame(fields: seq<Field>, store: seq<Value>, s: nat)
    requires Fits(Slots(fields), |store|) && s < |store| && s !in Slots(fields)
    ensures Zeroed(fields, store)[s] == store[s]
    decreases fields, 1
  {
    if fields != [] {
      ZeroedFieldFrame(fields[0], store, s);
      ZeroedFrame(fields[1..], ZeroedField(fields[0], store), s);
    }
  }

  lemma {:induction false} ZeroedFieldFrame(f: Field, store: seq<Value>, s: nat)
    requires Fits(FieldSlots(f), |store|) && s < |store| && s !in FieldSlots(f)
    ensures ZeroedField(f, store)[s] == store[s]
    decreases f, 0
  {
    match f
    case Leaf(_, _, _, _, _) =>
    case Nested(_, inner) => ZeroedFrame(inner, store, s);
    case Pointer(_, slot, inner) => ZeroedFrame(inner, store[slot := Nil], s);
  }

  lemma StepFrame(ps: Parsers, op: Op, store: seq<Value>, s: nat)
    requires Fits(Writes(op), |store|) && s < |store| && s !in Writes(op)
    ensures Step(ps, op, store).store[s] == store[s]
  {
    if op.Alloc? && store[op.slot] == Nil {
      ZeroedFrame(op.fields, store[op.slot := Allocated], s);
    }
  }

  /** Earlier operations are either apart from later ones or an allocation around them. */
  ghost predicate Before(a: Op, b: Op) {
    Writes(a) !! Writes(b) || (a.Alloc? && Writes(b) <= Slots(a.fields))
  }

  ghost predicate Ordered(ops: seq<Op>) {
    && (forall i :: 0 <= i < |ops| && ops[i].Alloc? ==> ops[i].slot !in Slots(ops[i].fields))
    && (forall i, j :: 0 <= i < j < |ops| ==> Before(ops[i], ops[j]))
  }

  lemma {:induction false} ProgramOrdered(env: map<string, string>, fields: seq<Field>)
    requires NoAliasing(fields)
    ensures Ordered(Program(env, fields))
    decreases fields, 1
  {
    if fields != [] {
      var a, b := FieldProgram(env, fields[0]), Program(env, fields[1..]);
      FieldProgramOrdered(env, fields[0]);
      ProgramOrdered(env, fields[1..]);
      FieldProgramWrites(env, fields[0]);
      ProgramWrites(env, fields[1..]);
      forall i, j | 0 <= i < j < |a + b| ensures Before((a + b)[i], (a + b)[j]) {
        if i < |a| <= j {
          assert Writes(a[i]) <= FieldSlots(fields[0]) && Writes(b[j - |a|]) <= Slots(fields[1..]);
        }
      }
    }
  }

  lemma {:induction false} FieldProgramOrdered(env: map<string, string>, f: Field)
    requires FieldNoAliasing(f)
    ensures Ordered(FieldProgram(env, f))
    decreases f, 0
  {
    if !f.Leaf? {
      ProgramOrdered(env, f.fields);
      ProgramWrites(env, f.fields);
    }
  }

  // ---------------------------------------------------------------------------------------------
  // Success
  // ---------------------------------------------------------------------------------------------

  /** The operation has nothing left to do. */
  predicate Settled(ps: Parsers, op: Op, store: seq<Value>) {
    op.slot < |store| &&
    match op
    case Alloc(slot, _) => store[slot] != Nil
    case Assign(slot, kind, text) => Parse(ps, kind, text) == Ok(store[slot])
  }

  /** A later operation does not unsettle an earlier one. */
  lemma StaysSettled(ps: Parsers, a: Op, b: Op, store: seq<Value>)
    requires Fits(Writes(b), |store|) && Settled(ps, a, store)
    requires Before(a, b) && (a.Alloc? ==> a.slot !in Slots(a.fields))
    ensures Settled(ps, a, Step(ps, b, store).store)
  {
    assert a.slot in Writes(a);
    assert a.slot !in Writes(b);
    StepFrame(ps, b, store, a.slot);
  }

  lemma {:induction false} ExecSettles(ps: Parsers, ops: seq<Op>, store: seq<Value>)
    requires AllFit(ops, |store|) && Ordered(ops) && Exec(ps, ops, store).err.None?
    ensures forall i :: 0 <= i < |ops| ==> Settled(ps, ops[i], Exec(ps, ops, store).store)
    decreases |ops|
  {
    if ops != [] {
      var n := |ops| - 1;
      var front, last := ops[..n], ops[n];
      assert front + [last] == ops;
      assert AllFit([last], |store|);
      ExecConcat(ps, front, [last], store);
      ExecSettles(ps, front, store);
      var mid := Exec(ps, front, store).store;
      var final := Step(ps, last, mid);
      assert Exec(ps, [last], mid) == final by { assert [last][1..] == []; }
      forall i | 0 <= i < |ops| ensures Settled(ps, ops[i], final.store) {
        if i < n {
          assert front[i] == ops[i];
          StaysSettled(ps, ops[i], last, mid);
        } else {
          JustSettled(ps, last, mid);
        }
      }
    }
  }

  lemma JustSettled(ps: Parsers, op: Op, store: seq<Value>)
    requires Fits(Writes(op), |store|) && Step(ps, op, store).err.None?
    requires op.Alloc? ==> op.slot !in Slots(op.fields)
    ensures Settled(ps, op, Step(ps, op, store).store)
  {
    assert op.slot in Writes(op);
    if op.Alloc? && store[op.slot] == Nil {
      ZeroedFrame(op.fields, store[op.slot := Allocated], op.slot);
    }
  }

  /** Running settled operations changes nothing. */
  lemma {:induction false} SettledIsIdle(ps: Parsers, ops: seq<Op>, store: seq<Value>)
    requires AllFit(ops, |store|)
    requires forall i :: 0 <= i < |ops| ==> Settled(ps, ops[i], store)
    ensures Exec(ps, ops, store) == Outcome(store, None)
  {
    if ops != [] {
      assert Settled(ps, ops[0], store);
      assert Step(ps, ops[0], store).store == store;
      SettledIsIdle(ps, ops[1..], store);
    }
  }

  /** The leaf is reached through settable fields only. */
  ghost predicate Reaches(fields: seq<Field>, leaf: Field)
    decreases fields
  {
    fields != [] && (FieldReaches(fields[0], leaf) || Reaches(fields[1..], leaf))
  }

  ghost predicate FieldReaches(f: Field, leaf: Field)
    decreases f
  {
    f.settable && if f.Leaf? then f == leaf else Reaches(f.fields, leaf)
  }

  /** The assignments of the program are those of the reached leaves that have a text. */
  lemma {:induction false} ReachedLeafIsAssigned(env: map<string, string>, fields: seq<Field>, leaf: Field)
    requires leaf.Leaf? && Reaches(fields, leaf) && Lookup(env, leaf).Some?
    ensures Assign(leaf.slot, leaf.kind, Lookup(env, leaf).value) in Program(env, fields)
    decreases fields, 1
  {
    if FieldReaches(fields[0], leaf) {
      var f := fields[0];
      if !f.Leaf? {
        ReachedLeafIsAssigned(env, f.fields, leaf);
      }
    } else {
      ReachedLeafIsAssigned(env, fields[1..], leaf);
    }
  }

  lemma {:induction false} AssignedIsReached(env: map<string, string>, fields: seq<Field>, op: Op) returns (leaf: Field)
    requires op.Assign? && op in Program(env, fields)
    ensures leaf.Leaf? && Reaches(fields, leaf) && leaf.slot == op.slot && leaf.kind == op.kind
    ensures Lookup(env, leaf) == Some(op.text)
    decreases fields, 1
  {
    if op in FieldProgram(env, fields[0]) {
      var f := fields[0];
      if f.Leaf? {
        leaf := f;
      } else {
        leaf := AssignedIsReached(env, f.fields, op);
      }
    } else {
      leaf := AssignedIsReached(env, fields[1..], op);
    }
  }

  /** A successful populate sets every settable tagged leaf that has an environment value or a
      non-empty default, at any depth and behind any pointer, to the parse of that text. */
  lemma PopulateSetsLeaves(ps: Parsers, env: map<string, string>, fields: seq<Field>, store: seq<Value>, leaf: Field)
    requires Fits(Slots(fields), |store|) && NoAliasing(fields)
    requires Populate(ps, env, fields, store).err.None?
    requires leaf.Leaf? && Reaches(fields, leaf) && Lookup(env, leaf).Some?
    ensures leaf.slot < |store|
    ensures Parse(ps, leaf.kind, Lookup(env, leaf).value) == Ok(Populate(ps, env, fields, store).store[leaf.slot])
  {
    var op := Assign(leaf.slot, leaf.kind, Lookup(env, leaf).value);
    ReachedLeafIsAssigned(env, fields, leaf);
    ProgramSettles(ps, env, fields, store, op);
  }

  lemma ProgramSettles(ps: Parsers, env: map<string, string>, fields: seq<Field>, store: seq<Value>, op: Op)
    requires Fits(Slots(fields), |store|) && NoAliasing(fields)
    requires Populate(ps, env, fields, store).err.None? && op in Program(env, fields)
    ensures Settled(ps, op, Populate(ps, env, fields, store).store)
  {
    var ops := Program(env, fields);
    PopulateIsExec(ps, env, fields, store);
    ProgramOrdered(env, fields);
    ExecSettles(ps, ops, store);
    var i :| 0 <= i < |ops| && ops[i] == op;
  }

  /** A list-valued leaf ends up with one element per trimmed non-blank comma segment, in order. */
  lemma PopulateSetsLists(ps: Parsers, env: map<string, string>, fields: seq<Field>, store: seq<Value>, leaf: Field,
                          text: string, r: Outcome)
    requires Fits(Slots(fields), |store|) && NoAliasing(fields)
    requires r == Populate(ps, env, fields, store) && r.err.None?
    requires leaf.Leaf? && leaf.kind.SliceKind? && Reaches(fields, leaf) && Lookup(env, leaf) == Some(text)
    ensures leaf.slot < |r.store|
    ensures var v := r.store[leaf.slot];
            v.List? && Parses(ParserOf(ps, leaf.kind.elem), Trimmed(ps.isSpace, Split(text)), v.elems)
  {
    PopulateSetsLeaves(ps, env, fields, store, leaf);
    ListOfSegments(ps, leaf.kind, text, r.store[leaf.slot]);
  }

  /** An empty variable does not fall back to the default even where the default would parse. */
  lemma EmptyVariableFails(ps: Parsers)
    requires ps.parseInt("").None? && ps.parseInt("8080") == Some(8080)
    ensures var port := [Leaf(true, "PORT", "8080", IntKind(32), 0)];
            && Fits(Slots(port), 1)
            && Populate(ps, map["PORT" := ""], port, [Int(0)]).err == Some(Failure(0, BadSyntax))
  {
    var leaf := Leaf(true, "PORT", "8080", IntKind(32), 0);
    assert Slots([leaf]) == {0} by { assert [leaf][1..] == []; }
    assert PopulateField(ps, map["PORT" := ""], leaf, [Int(0)]).err == Some(Failure(0, BadSyntax));
  }

  lemma {:induction false} ExecSucceeds(ps: Parsers, ops: seq<Op>, store: seq<Value>)
    requires AllFit(ops, |store|)
    ensures Exec(ps, ops, store).err.None? <==>
            forall i :: 0 <= i < |ops| && ops[i].Assign? ==> Parse(ps, ops[i].kind, ops[i].text).Ok?
  {
    if ops != [] {
      var rest := ops[1..];
      var next := Step(ps, ops[0], store).store;
      ExecSucceeds(ps, rest, next);
      if Exec(ps, ops, store).err.None? {
        forall i | 0 <= i < |ops| && ops[i].Assign? ensures Parse(ps, ops[i].kind, ops[i].text).Ok? {
          if i > 0 { assert rest[i - 1] == ops[i]; }
        }
      }
    }
  }

  /** populate succeeds if and only if every such leaf has a text that its kind accepts, whatever the
      struct held before. */
  lemma PopulateSucceedsIff(ps: Parsers, env: map<string, string>, fields: seq<Field>, store: seq<Value>)
    requires Fits(Slots(fields), |store|)
    ensures Populate(ps, env, fields, store).err.None? <==>
            forall leaf: Field :: leaf.Leaf? && Reaches(fields, leaf) && Lookup(env, leaf).Some? ==>
              Parse(ps, leaf.kind, Lookup(env, leaf).value).Ok?
  {
    var ops := Program(env, fields);
    PopulateIsExec(ps, env, fields, store);
    ExecSucceeds(ps, ops, store);
    if Populate(ps, env, fields, store).err.None? {
      forall leaf: Field | leaf.Leaf? && Reaches(fields, leaf) && Lookup(env, leaf).Some?
        ensures Parse(ps, leaf.kind, Lookup(env, leaf).value).Ok?
      {
        ReachedLeafIsAssigned(env, fields, leaf);
        var i :| 0 <= i < |ops| && ops[i] == Assign(leaf.slot, leaf.kind, Lookup(env, leaf).value);
      }
    } else {
      var i :| 0 <= i < |ops| && ops[i].Assign? && !Parse(ps, ops[i].kind, ops[i].text).Ok?;
      var leaf := AssignedIsReached(env, fields, ops[i]);
    }
  }

  /** What a leaf with a default gets, for every kind and both outcomes. `used` is the parse of the text
      that populate looks up and `dflt` that of the default: a success leaves the default's value in
      the leaf if and only if the two parse alike, and a text that does not parse is an error even if
      the default would. */
  lemma DefaultUsedIff(ps: Parsers, env: map<string, string>, fields: seq<Field>, store: seq<Value>, leaf: Field,
                       text: string, used: Parsed<Value>, dflt: Parsed<Value>, r: Outcome)
    requires Fits(Slots(fields), |store|) && NoAliasing(fields) && r == Populate(ps, env, fields, store)
    requires leaf.Leaf? && Reaches(fields, leaf) && Lookup(env, leaf) == Some(text)
    requires used == Parse(ps, leaf.kind, text) && dflt == Parse(ps, leaf.kind, leaf.fallback)
    ensures r.err.None? ==> leaf.slot < |r.store| && (dflt == Ok(r.store[leaf.slot]) <==> used == dflt)
    ensures used.Bad? ==> r.err.Some?
  {
    PopulateSucceedsIff(ps, env, fields, store);
    if r.err.None? {
      PopulateSetsLeaves(ps, env, fields, store, leaf);
    }
  }

  /** A variable that exists and is empty wins over the default: the leaf gets the default's value if and
      only if the empty text parses to the same, and where the empty text does not parse populate
      fails. */
  lemma EmptyVariableWins(ps: Parsers, env: map<string, string>, fields: seq<Field>, store: seq<Value>, leaf: Field,
                          empty: Parsed<Value>, dflt: Parsed<Value>, r: Outcome)
    requires Fits(Slots(fields), |store|) && NoAliasing(fields) && r == Populate(ps, env, fields, store)
    requires leaf.Leaf? && Reaches(fields, leaf) && leaf.env != "" && leaf.env in env && env[leaf.env] == ""
    requires empty == Parse(ps, leaf.kind, "") && dflt == Parse(ps, leaf.kind, leaf.fallback)
    ensures r.err.None? ==> leaf.slot < |r.store| && Ok(r.store[leaf.slot]) == empty
    ensures r.err.None? ==> (dflt == Ok(r.store[leaf.slot]) <==> empty == dflt)
    ensures empty.Bad? ==> r.err.Some?
  {
    DefaultUsedIff(ps, env, fields, store, leaf, "", empty, dflt, r);
    if r.err.None? {
      PopulateSetsLeaves(ps, env, fields, store, leaf);
    }
  }

  /** For a text field, in terms of the environment alone: the default is used if and only if the
      variable does not exist or holds the same text. */
  lemma TextDefaultUsedIff(ps: Parsers, env: map<string, string>, fields: seq<Field>, store: seq<Value>, leaf: Field, r: Outcome)
    requires Fits(Slots(fields), |store|) && NoAliasing(fields)
    requires r == Populate(ps, env, fields, store) && r.err.None?
    requires leaf.Leaf? && leaf.kind.StringKind? && Reaches(fields, leaf) && leaf.env != "" && leaf.fallback != ""
    ensures leaf.slot < |r.store|
    ensures r.store[leaf.slot] == Str(leaf.fallback) <==> leaf.env !in env || env[leaf.env] == leaf.fallback
  {
    PopulateSetsLeaves(ps, env, fields, store, leaf);
  }

  /** A second populate after a successful one changes nothing and succeeds. */
  lemma PopulateIsIdempotent(ps: Parsers, env: map<string, string>, fields: seq<Field>, store: seq<Value>)
    requires Fits(Slots(fields), |store|) && NoAliasing(fields)
    requires Populate(ps, env, fields, store).err.None?
    ensures Populate(ps, env, fields, Populate(ps, env, fields, store).store) == Populate(ps, env, fields, store)
  {
    var once := Populate(ps, env, fields, store).store;
    PopulateIsExec(ps, env, fields, store);
    PopulateIsExec(ps, env, fields, once);
    ProgramOrdered(env, fields);
    ExecSettles(ps, Program(env, fields), store);
    SettledIsIdle(ps, Program(env, fields), once);
  }

  // ---------------------------------------------------------------------------------------------
  // Everything else
  // ---------------------------------------------------------------------------------------------

  /** The operation will not write cell s: it assigns another cell, or it finds its pointer allocated. */
  ghost predicate Spares(op: Op, store: seq<Value>, s: nat) {
    s !in Writes(op) || (op.Alloc? && op.slot < |store| && store[op.slot] != Nil)
  }

  lemma {:induction false} ExecSpares(ps: Parsers, ops: seq<Op>, store: seq<Value>, s: nat)
    requires AllFit(ops, |store|) && Ordered(ops) && s < |store|
    requires forall i :: 0 <= i < |ops| ==> Spares(ops[i], store, s)
    ensures Exec(ps, ops, store).store[s] == store[s]
  {
    if ops != [] {
      var op, rest := ops[0], ops[1..];
      var next := Step(ps, op, store).store;
      assert Spares(op, store, s);
      if s !in Writes(op) { StepFrame(ps, op, store, s); }
      forall i | 0 <= i < |rest| ensures Spares(rest[i], next, s) {
        assert rest[i] == ops[i + 1] && Spares(ops[i + 1], store, s) && Before(ops[0], ops[i + 1]);
        StillSpares(ps, op, rest[i], store, s);
      }
      ExecSpares(ps, rest, next, s);
    }
  }

  /** If a spares cell s then running a does not free the pointer that makes b spare it. */
  lemma StillSpares(ps: Parsers, a: Op, b: Op, store: seq<Value>, s: nat)
    requires Fits(Writes(a), |store|) && Before(a, b)
    requires Spares(a, store, s) && Spares(b, store, s)
    ensures Spares(b, Step(ps, a, store).store, s)
  {
    assert b.slot in Writes(b);
    if s in Writes(b) && b.slot !in Writes(a) {
      StepFrame(ps, a, store, b.slot);
    }
  }

  /** populate leaves a cell alone, whether it succeeds or fails, unless the cell belongs to a reached
      leaf with a text, to a nil pointer it allocates, or to the struct behind one. */
  lemma PopulateLeavesOthers(ps: Parsers, env: map<string, string>, fields: seq<Field>, store: seq<Value>, s: nat)
    requires Fits(Slots(fields), |store|) && NoAliasing(fields) && s < |store|
    requires forall leaf: Field :: leaf.Leaf? && Reaches(fields, leaf) && Lookup(env, leaf).Some? ==> leaf.slot != s
    requires forall op :: op in Program(env, fields) && op.Alloc? && s in Writes(op) ==> op.slot < |store| && store[op.slot] != Nil
    ensures Populate(ps, env, fields, store).store[s] == store[s]
  {
    var ops := Program(env, fields);
    PopulateIsExec(ps, env, fields, store);
    ProgramOrdered(env, fields);
    forall i | 0 <= i < |ops| ensures Spares(ops[i], store, s) {
      assert ops[i] in ops;
      if ops[i].Assign? {
        var leaf := AssignedIsReached(env, fields, ops[i]);
      }
    }
    ExecSpares(ps, ops, store, s);
  }

  /** The leaf belongs to the struct, at any depth, behind any pointer, settable or not. */
  ghost predicate Within(fields: seq<Field>, leaf: Field)
    decreases fields
  {
    fields != [] && (FieldWithin(fields[0], leaf) || Within(fields[1..], leaf))
  }

  ghost predicate FieldWithin(f: Field, leaf: Field)
    decreases f
  {
    if f.Leaf? then f == leaf else Within(f.fields, leaf)
  }

  /** The leaf lies behind a pointer that is nil and that populate comes to. */
  ghost predicate Fresh(fields: seq<Field>, store: seq<Value>, leaf: Field)
    requires Fits(Slots(fields), |store|)
    decreases fields
  {
    fields != [] && (FieldFresh(fields[0], store, leaf) || Fresh(fields[1..], store, leaf))
  }

  ghost predicate FieldFresh(f: Field, store: seq<Value>, leaf: Field)
    requires Fits(FieldSlots(f), |store|)
    decreases f
  {
    f.settable &&
    match f
    case Leaf(_, _, _, _, _) => false
    case Nested(_, inner) => Fresh(inner, store, leaf)
    case Pointer(_, slot, inner) =>
      assert slot in FieldSlots(f) && Slots(inner) <= FieldSlots(f);
      if store[slot] == Nil then Within(inner, leaf) else Fresh(inner, store, leaf)
  }

  lemma {:induction false} WithinSlots(fields: seq<Field>, leaf: Field)
    requires leaf.Leaf? && Within(fields, leaf)
    ensures leaf.slot in Slots(fields)
    decreases fields
  {
    if FieldWithin(fields[0], leaf) {
      var f := fields[0];
      if !f.Leaf? {
        WithinSlots(f.fields, leaf);
      }
    } else {
      WithinSlots(fields[1..], leaf);
    }
  }

  lemma {:induction false} FreshWithin(fields: seq<Field>, store: seq<Value>, leaf: Field)
    requires Fits(Slots(fields), |store|) && Fresh(fields, store, leaf)
    ensures Within(fields, leaf)
    decreases fields
  {
    var f := fields[0];
    if !FieldFresh(f, store, leaf) {
      FreshWithin(fields[1..], store, leaf);
    } else if !FieldWithin(f, leaf) {
      FreshWithin(f.fields, store, leaf);
    }
  }

  /** Freshness depends on the struct's own cells only. */
  lemma {:induction false} FreshFrame(fields: seq<Field>, store: seq<Value>, other: seq<Value>, leaf: Field)
    requires Fits(Slots(fields), |store|) && |store| == |other|
    requires forall s :: s in Slots(fields) ==> store[s] == other[s]
    ensures Fresh(fields, store, leaf) <==> Fresh(fields, other, leaf)
    decreases fields
  {
    if fields != [] {
      var f := fields[0];
      if !f.Leaf? {
        assert Slots(f.fields) <= FieldSlots(f);
        FreshFrame(f.fields, store, other, leaf);
      }
      if f.Pointer? { assert f.slot in FieldSlots(f); }
      FreshFrame(fields[1..], store, other, leaf);
    }
  }

  lemma {:induction false} ZeroedLeaf(fields: seq<Field>, store: seq<Value>, leaf: Field)
    requires Fits(Slots(fields), |store|) && NoAliasing(fields)
    requires leaf.Leaf? && Within(fields, leaf)
    ensures leaf.slot < |store| && Zeroed(fields, store)[leaf.slot] == ZeroOf(leaf.kind)
    decreases fields
  {
    var f, rest := fields[0], fields[1..];
    var next := ZeroedField(f, store);
    WithinSlots(fields, leaf);
    if FieldWithin(f, leaf) {
      WithinSlots([f], leaf);
      if !f.Leaf? {
        ZeroedLeaf(f.fields, if f.Pointer? then store[f.slot := Nil] else store, leaf);
      }
      ZeroedFrame(rest, next, leaf.slot);
    } else {
      ZeroedLeaf(rest, next, leaf);
    }
  }

  lemma {:induction false} ExecFrame(ps: Parsers, ops: seq<Op>, store: seq<Value>, s: nat)
    requires AllFit(ops, |store|) && s < |store|
    requires forall i :: 0 <= i < |ops| ==> s !in Writes(ops[i])
    ensures Exec(ps, ops, store).store[s] == store[s]
  {
    if ops != [] {
      assert s !in Writes(ops[0]);
      StepFrame(ps, ops[0], store, s);
      ExecFrame(ps, ops[1..], Step(ps, ops[0], store).store, s);
    }
  }

  lemma {:induction false} FirstFailure(ps: Parsers, ops: seq<Op>, store: seq<Value>) returns (n: nat)
    requires AllFit(ops, |store|) && Exec(ps, ops, store).err.Some?
    ensures n < |ops| && ops[n].Assign?
    ensures Parse(ps, ops[n].kind, ops[n].text).Bad?
    ensures Exec(ps, ops, store).err == Some(Failure(ops[n].slot, Parse(ps, ops[n].kind, ops[n].text).cause))
    ensures AllFit(ops[..n], |store|) && Exec(ps, ops[..n], store) == Outcome(Exec(ps, ops, store).store, None)
    decreases |ops|
  {
    var first := Step(ps, ops[0], store);
    if first.err.Some? {
      n := 0;
    } else {
      var m := FirstFailure(ps, ops[1..], first.store);
      n := m + 1;
      assert ops[..n][1..] == ops[1..][..m];
    }
  }

  /** On error populate has run exactly the operations before the failing leaf in traversal order: the
      error names that leaf, the earlier leaves are set, and the cells that only later operations
      write are as they were. */
  lemma PopulateStopsAtFirstFailure(ps: Parsers, env: map<string, string>, fields: seq<Field>, store: seq<Value>)
    returns (n: nat)
    requires Fits(Slots(fields), |store|) && NoAliasing(fields)
    requires Populate(ps, env, fields, store).err.Some?
    ensures var ops, r := Program(env, fields), Populate(ps, env, fields, store);
            && n < |ops| && ops[n].Assign? && Parse(ps, ops[n].kind, ops[n].text).Bad?
            && r.err == Some(Failure(ops[n].slot, Parse(ps, ops[n].kind, ops[n].text).cause))
            && (forall i :: 0 <= i < n ==> Settled(ps, ops[i], r.store))
            && (forall s :: 0 <= s < |store| && (forall i :: 0 <= i < n ==> s !in Writes(ops[i])) ==> r.store[s] == store[s])
  {
    var ops, r := Program(env, fields), Populate(ps, env, fields, store);
    PopulateIsExec(ps, env, fields, store);
    ProgramOrdered(env, fields);
    n := FirstFailure(ps, ops, store);
    assert Ordered(ops[..n]);
    ExecSettles(ps, ops[..n], store);
    forall i | 0 <= i < n ensures Settled(ps, ops[i], r.store) {
      assert ops[..n][i] == ops[i];
    }
    forall s | 0 <= s < |store| && (forall i :: 0 <= i < n ==> s !in Writes(ops[i])) ensures r.store[s] == store[s] {
      ExecFrame(ps, ops[..n], store, s);
    }
  }

  lemma PopulateFrame(ps: Parsers, env: map<string, string>, fields: seq<Field>, store: seq<Value>, s: nat)
    requires Fits(Slots(fields), |store|) && s < |store| && s !in Slots(fields)
    ensures Populate(ps, env, fields, store).store[s] == store[s]
  {
    PopulateIsExec(ps, env, fields, store);
    ProgramWrites(env, fields);
    ExecFrame(ps, Program(env, fields), store, s);
  }

  lemma PopulateFieldFrame(ps: Parsers, env: map<string, string>, f: Field, store: seq<Value>, s: nat)
    requires Fits(FieldSlots(f), |store|) && s < |store| && s !in FieldSlots(f)
    ensures PopulateField(ps, env, f, store).store[s] == store[s]
  {
    PopulateFieldIsExec(ps, env, f, store);
    FieldProgramWrites(env, f);
    ExecFrame(ps, FieldProgram(env, f), store, s);
  }

  /** What a leaf that populate does not set holds afterwards: its type's zero value if it lies behind a
      pointer that populate allocated, and what it held before otherwise. On an error the traversal
      may not have come to the pointer yet. */
  lemma {:induction false} UnsetLeaf(ps: Parsers, env: map<string, string>, fields: seq<Field>, store: seq<Value>,
                                     leaf: Field, r: Outcome)
    requires Fits(Slots(fields), |store|) && NoAliasing(fields) && r == Populate(ps, env, fields, store)
    requires leaf.Leaf? && Within(fields, leaf) && (Reaches(fields, leaf) ==> Lookup(env, leaf).None?)
    ensures leaf.slot < |store|
    ensures r.store[leaf.slot] == (if Fresh(fields, store, leaf) then ZeroOf(leaf.kind) else store[leaf.slot])
            || (r.err.Some? && r.store[leaf.slot] == store[leaf.slot])
    decreases fields, 1
  {
    var f, rest := fields[0], fields[1..];
    var first := PopulateField(ps, env, f, store);
    WithinSlots(fields, leaf);
    if FieldWithin(f, leaf) {
      UnsetLeafOfField(ps, env, f, store, leaf);
      WithinSlots([f], leaf);
      if Fresh(rest, store, leaf) {
        FreshWithin(rest, store, leaf);
        WithinSlots(rest, leaf);
      }
      PopulateFrame(ps, env, rest, first.store, leaf.slot);
    } else {
      WithinSlots(rest, leaf);
      if FieldFresh(f, store, leaf) { FreshWithin([f], store, leaf); }
      forall s | s in Slots(rest) ensures first.store[s] == store[s] {
        PopulateFieldFrame(ps, env, f, store, s);
      }
      FreshFrame(rest, store, first.store, leaf);
      UnsetLeaf(ps, env, rest, first.store, leaf, Populate(ps, env, rest, first.store));
    }
  }

  lemma {:induction false} UnsetLeafOfField(ps: Parsers, env: map<string, string>, f: Field, store: seq<Value>, leaf: Field)
    requires Fits(FieldSlots(f), |store|) && FieldNoAliasing(f)
    requires leaf.Leaf? && FieldWithin(f, leaf) && (FieldReaches(f, leaf) ==> Lookup(env, leaf).None?)
    ensures leaf.slot < |store|
    ensures var r := PopulateField(ps, env, f, store);
            r.store[leaf.slot] == (if FieldFresh(f, store, leaf) then ZeroOf(leaf.kind) else store[leaf.slot])
            || (r.err.Some? && r.store[leaf.slot] == store[leaf.slot])
    decreases f, 0
  {
    WithinSlots([f], leaf);
    if f.settable && !f.Leaf? {
      assert Slots(f.fields) <= FieldSlots(f);
      WithinSlots(f.fields, leaf);
      var target := store;
      if f.Pointer? && store[f.slot] == Nil {
        target := Zeroed(f.fields, store[f.slot := Allocated]);
        ZeroedLeaf(f.fields, store[f.slot := Allocated], leaf);
      }
      UnsetLeaf(ps, env, f.fields, target, leaf, Populate(ps, env, f.fields, target));
    }
  }
}
