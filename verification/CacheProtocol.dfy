/** `InMemoryCache` as a step system split at its lock boundaries: the operations interleave between
    their locked sections while a monotone clock advances. The specification is a timed map that
    only Set and Delete change. */
module CacheProtocol {
  import opened Wrappers

  newtype byte = x: int | 0 <= x < 256

  /** An entry; `expiration` is None for Go's zero time, which never expires. */
  datatype Item = Item(value: seq<byte>, expiration: Option<int>)

  /** `!exp.IsZero() && now.After(exp)`. */
  predicate Expired(item: Item, now: int) {
    item.expiration.Some? && now > item.expiration.value
  }

  /** Set's expiration for a time to live, 0 meaning forever. */
  function Deadline(ttl: int, now: int): Option<int> {
    if ttl == 0 then None else Some(now + ttl)
  }

  /** The entries a reader may still see at an instant. */
  function LiveView(items: map<string, Item>, now: int): map<string, Item> {
    map k | k in items && !Expired(items[k], now) :: items[k]
  }

  /** First phase of evictExpired: keys with their observed deadlines. */
  function Stale(items: map<string, Item>, now: int): set<(string, int)> {
    set k | k in items && Expired(items[k], now) :: (k, items[k].expiration.value)
  }

  /** Deletion under the write lock, each key re-checked against the deadline observed earlier. */
  function DeleteStale(items: map<string, Item>, stale: set<(string, int)>): map<string, Item> {
    map k | k in items && !Condemns(stale, k, items[k]) :: items[k]
  }

  predicate Condemns(stale: set<(string, int)>, k: string, item: Item) {
    item.expiration.Some? && (k, item.expiration.value) in stale
  }

  // ---------------------------------------------------------------------------------------------
  // Steps
  // ---------------------------------------------------------------------------------------------

  /** An operation between two of its locked sections. */
  datatype Op =
    | Storing(key: string, item: Item)                    // Set: deadline and copy made, lock not taken
    | Fetched(key: string, item: Item)                    // Get: entry read, clock not checked
    | Condemned(key: string, deadline: int)               // Get: entry found expired, lock not taken
    | Sweeping(now: int)                                  // evictExpired: clock read, no lock yet
    | Swept(stale: set<(string, int)>)                    // evictExpired: between the two phases

  /** `writes` is history: the latest write to each key, changed by Set and Delete alone. */
  datatype State = State(clock: int, items: map<string, Item>, writes: map<string, Item>, ops: map<nat, Op>)

  datatype Step =
    | Tick(now: int)
    | BeginSet(id: nat, key: string, value: seq<byte>, ttl: int)
    | CommitSet(id: nat)
    | Delete(key: string)
    | BeginGet(id: nat, key: string)                      // read under RLock
    | CheckGet(id: nat)                                   // clock check, outside any lock
    | FinishGet(id: nat)                                  // lazy deletion under Lock
    | BeginEvict(id: nat)                                 // time.Now()
    | ScanEvict(id: nat)                                  // phase 1, under RLock
    | FinishEvict(id: nat)                                // phase 2, under Lock
  {
    /** The operation a step belongs to. */
    function Owner(): Option<nat> {
      if Tick? || Delete? then None else Some(id)
    }
  }

  datatype Reply = Pending | Hit(value: seq<byte>) | Miss

  const Start := State(0, map[], map[], map[])

  predicate Enabled(s: State, step: Step) {
    match step
    case Tick(now) => now >= s.clock
    case BeginSet(id, _, _, _) => id !in s.ops
    case CommitSet(id) => id in s.ops && s.ops[id].Storing?
    case Delete(_) => true
    case BeginGet(id, _) => id !in s.ops
    case CheckGet(id) => id in s.ops && s.ops[id].Fetched?
    case FinishGet(id) => id in s.ops && s.ops[id].Condemned?
    case BeginEvict(id) => id !in s.ops
    case ScanEvict(id) => id in s.ops && s.ops[id].Sweeping?
    case FinishEvict(id) => id in s.ops && s.ops[id].Swept?
  }

  function Next(s: State, step: Step): State
    requires Enabled(s, step)
  {
    match step
    case Tick(now) => s.(clock := now)
    case BeginSet(id, key, value, ttl) =>
      s.(ops := s.ops[id := Storing(key, Item(value, Deadline(ttl, s.clock)))])
    case CommitSet(id) =>
      var op := s.ops[id];
      s.(items := s.items[op.key := op.item], writes := s.writes[op.key := op.item], ops := s.ops - {id})
    case Delete(key) => s.(items := s.items - {key}, writes := s.writes - {key})
    case BeginGet(id, key) =>
      if key in s.items then s.(ops := s.ops[id := Fetched(key, s.items[key])]) else s
    case CheckGet(id) =>
      var op := s.ops[id];
      if Expired(op.item, s.clock)
      then s.(ops := s.ops[id := Condemned(op.key, op.item.expiration.value)])
      else s.(ops := s.ops - {id})
    case FinishGet(id) =>
      var op := s.ops[id];
      s.(items := DeleteStale(s.items, {(op.key, op.deadline)}), ops := s.ops - {id})
    case BeginEvict(id) => s.(ops := s.ops[id := Sweeping(s.clock)])
    case ScanEvict(id) => s.(ops := s.ops[id := Swept(Stale(s.items, s.ops[id].now))])
    case FinishEvict(id) =>
      s.(items := DeleteStale(s.items, s.ops[id].stale), ops := s.ops - {id})
  }

  /** What Get reports at a step; the lazy deletion that follows an expired check does not change it. */
  function Answer(s: State, step: Step): Reply
    requires Enabled(s, step)
  {
    match step
    case BeginGet(_, key) => if key in s.items then Pending else Miss
    case CheckGet(id) => if Expired(s.ops[id].item, s.clock) then Miss else Hit(s.ops[id].item.value)
    case _ => Pending
  }

  ghost predicate Run(s: State, steps: seq<Step>, t: State)
    decreases |steps|
  {
    if steps == [] then s == t else Enabled(s, steps[0]) && Run(Next(s, steps[0]), steps[1..], t)
  }

  // ---------------------------------------------------------------------------------------------
  // Invariant
  // ---------------------------------------------------------------------------------------------

  /** The map holds latest writes only, and misses none that is still live. */
  ghost predicate Refines(s: State) {
    && (forall k :: k in s.items ==> k in s.writes && s.writes[k] == s.items[k])
    && (forall k :: k in s.writes && k !in s.items ==> Expired(s.writes[k], s.clock))
  }

  /** Every deadline waiting to be deleted has already passed. */
  ghost predicate PastDeadlines(s: State, op: Op) {
    match op
    case Condemned(_, deadline) => deadline < s.clock
    case Sweeping(now) => now <= s.clock
    case Swept(stale) => forall p :: p in stale ==> p.1 < s.clock
    case _ => true
  }

  ghost predicate Inv(s: State) {
    && Refines(s)
    && (forall id :: id in s.ops ==> PastDeadlines(s, s.ops[id]))
  }

  /** Deleting past deadlines removes expired entries only. */
  lemma DeletionSparesLive(s: State, stale: set<(string, int)>)
    requires forall p :: p in stale ==> p.1 < s.clock
    ensures forall k :: k in s.items && k !in DeleteStale(s.items, stale) ==> Expired(s.items[k], s.clock)
    ensures LiveView(DeleteStale(s.items, stale), s.clock) == LiveView(s.items, s.clock)
  {
    forall k | k in s.items && Condemns(stale, k, s.items[k]) ensures Expired(s.items[k], s.clock) {
      assert (k, s.items[k].expiration.value).1 < s.clock;
    }
  }

  lemma StepInv(s: State, step: Step)
    requires Inv(s) && Enabled(s, step)
    ensures Inv(Next(s, step))
  {
    var t := Next(s, step);
    match step
    case FinishGet(id) =>
      assert PastDeadlines(s, s.ops[id]);
      DeletionSparesLive(s, {(s.ops[id].key, s.ops[id].deadline)});
    case FinishEvict(id) =>
      assert PastDeadlines(s, s.ops[id]);
      DeletionSparesLive(s, s.ops[id].stale);
    case ScanEvict(id) => assert PastDeadlines(s, s.ops[id]);
    case _ =>
  }

  lemma {:induction false} RunInv(s: State, steps: seq<Step>, t: State)
    requires Inv(s) && Run(s, steps, t)
    ensures Inv(t) && s.clock <= t.clock
    decreases |steps|
  {
    if steps != [] {
      StepInv(s, steps[0]);
      RunInv(Next(s, steps[0]), steps[1..], t);
    }
  }

  // ---------------------------------------------------------------------------------------------
  // Theorems
  // ---------------------------------------------------------------------------------------------

  /** At every instant of every interleaving, what the cache holds live is exactly what the latest
      writes leave live: the cache refines the timed map. */
  lemma LiveViewIsLatestWrites(steps: seq<Step>, s: State)
    requires Run(Start, steps, s)
    ensures LiveView(s.items, s.clock) == LiveView(s.writes, s.clock)
  {
    RunInv(Start, steps, s);
  }

  /** Eviction is invisible: only Set, Delete and time change the live view. The two deletions under
      lock never remove an entry that is live at that instant, whatever happened to the key since
      its deadline was observed. */
  lemma EvictionIsInvisible(steps: seq<Step>, s: State, step: Step)
    requires Run(Start, steps, s) && Enabled(s, step)
    requires !step.Tick? && !step.CommitSet? && !step.Delete?
    ensures LiveView(Next(s, step).items, s.clock) == LiveView(s.items, s.clock)
    ensures forall k :: k in s.items && k !in Next(s, step).items ==> Expired(s.items[k], s.clock)
    ensures forall k :: k in Next(s, step).items ==> k in s.items && Next(s, step).items[k] == s.items[k]
  {
    RunInv(Start, steps, s);
    if step.FinishGet? {
      assert PastDeadlines(s, s.ops[step.id]);
      DeletionSparesLive(s, {(s.ops[step.id].key, s.ops[step.id].deadline)});
    } else if step.FinishEvict? {
      assert PastDeadlines(s, s.ops[step.id]);
      DeletionSparesLive(s, s.ops[step.id].stale);
    }
  }

  /** The steps of other operations leave an operation where it is. */
  lemma {:induction false} OthersKeepOp(s: State, steps: seq<Step>, t: State, id: nat)
    requires Run(s, steps, t) && id in s.ops
    requires forall i :: 0 <= i < |steps| ==> steps[i].Owner() != Some(id)
    ensures id in t.ops && t.ops[id] == s.ops[id]
    decreases |steps|
  {
    if steps != [] {
      var s' := Next(s, steps[0]);
      assert steps[0].Owner() != Some(id);
      OthersKeepOp(s', steps[1..], t, id);
    }
  }

  /** What a Get reports, for every interleaving around it. `s` is the state at its read and `t` the
      state at its clock check, any steps of other operations in between. It is a hit exactly when
      the latest write as of the read instant is still live at the clock check, and then it returns
      that write. */
  lemma GetAnswers(before: seq<Step>, s: State, id: nat, key: string, between: seq<Step>, t: State)
    requires Run(Start, before, s) && Enabled(s, BeginGet(id, key))
    requires Run(Next(s, BeginGet(id, key)), between, t)
    requires forall i :: 0 <= i < |between| ==> between[i].Owner() != Some(id)
    ensures Answer(s, BeginGet(id, key)) == Miss ==> key !in LiveView(s.writes, s.clock)
    ensures Answer(s, BeginGet(id, key)) == Pending ==>
              && key in s.writes
              && Enabled(t, CheckGet(id))
              && (if Expired(s.writes[key], t.clock) then Answer(t, CheckGet(id)) == Miss
                  else Answer(t, CheckGet(id)) == Hit(s.writes[key].value))
    ensures key in s.writes && !Expired(s.writes[key], t.clock) ==>
              && Answer(s, BeginGet(id, key)) == Pending
              && Answer(t, CheckGet(id)) == Hit(s.writes[key].value)
              && key in LiveView(s.writes, s.clock)
  {
    RunInv(Start, before, s);
    var s' := Next(s, BeginGet(id, key));
    StepInv(s, BeginGet(id, key));
    RunInv(s', between, t);
    if key in s.items {
      OthersKeepOp(s', between, t, id);
    }
  }

  /** The key has a live entry in every state of a run. */
  ghost predicate LiveThroughout(s: State, steps: seq<Step>, key: string)
    decreases |steps|
  {
    && key in LiveView(s.items, s.clock)
    && (steps != [] ==> Enabled(s, steps[0]) && LiveThroughout(Next(s, steps[0]), steps[1..], key))
  }

  /** The step writes the key. */
  predicate WritesKey(s: State, step: Step, key: string)
    requires Enabled(s, step)
  {
    (step.Delete? && step.key == key) || (step.CommitSet? && s.ops[step.id].key == key)
  }

  /** No step of the run writes the key. */
  ghost predicate Untouched(s: State, steps: seq<Step>, key: string)
    decreases |steps|
  {
    steps == [] ||
    (Enabled(s, steps[0]) && !WritesKey(s, steps[0], key) && Untouched(Next(s, steps[0]), steps[1..], key))
  }

  lemma {:induction false} UntouchedKeepsWrite(s: State, steps: seq<Step>, t: State, key: string)
    requires Run(s, steps, t) && Untouched(s, steps, key) && key in s.writes
    ensures key in t.writes && t.writes[key] == s.writes[key]
    decreases |steps|
  {
    if steps != [] {
      UntouchedKeepsWrite(Next(s, steps[0]), steps[1..], t, key);
    }
  }

  /** When a miss is genuine: if nobody writes the key between the read and the clock check, then the
      answer of Get is that of the cache at the instant of the check, a miss exactly when the key is
      not live there and otherwise the value it holds, however the evictions and the operations on
      other keys interleave. */
  lemma AnswerIsCurrent(before: seq<Step>, s: State, id: nat, key: string, between: seq<Step>, t: State)
    requires Run(Start, before, s) && Enabled(s, BeginGet(id, key))
    requires Run(Next(s, BeginGet(id, key)), between, t)
    requires forall i :: 0 <= i < |between| ==> between[i].Owner() != Some(id)
    ensures Answer(s, BeginGet(id, key)) == Miss <==> key !in s.items
    ensures Answer(s, BeginGet(id, key)) == Miss ==> key !in LiveView(s.items, s.clock)
    ensures key in s.items && Untouched(Next(s, BeginGet(id, key)), between, key) ==>
              && Enabled(t, CheckGet(id))
              && (Answer(t, CheckGet(id)) == Miss <==> key !in LiveView(t.items, t.clock))
              && (key in LiveView(t.items, t.clock) ==> Answer(t, CheckGet(id)) == Hit(t.items[key].value))
  {
    GetAnswers(before, s, id, key, between, t);
    RunInv(Start, before, s);
    StepInv(s, BeginGet(id, key));
    var s' := Next(s, BeginGet(id, key));
    if key in s.items && Untouched(s', between, key) {
      WriteStaysVisible(s', between, t, key);
    }
  }

  lemma {:induction false} LiveAtEnd(s: State, steps: seq<Step>, t: State, key: string)
    requires Run(s, steps, t) && LiveThroughout(s, steps, key)
    ensures key in LiveView(t.items, t.clock)
    decreases |steps|
  {
    if steps != [] {
      LiveAtEnd(Next(s, steps[0]), steps[1..], t, key);
    }
  }

  /** A miss on a key that is live all along has one cause only: a write to the key between the read
      and the clock check. */
  lemma FalseMissNeedsAWrite(before: seq<Step>, s: State, id: nat, key: string, between: seq<Step>, t: State)
    requires Run(Start, before, s) && Enabled(s, BeginGet(id, key))
    requires Run(Next(s, BeginGet(id, key)), between, t)
    requires forall i :: 0 <= i < |between| ==> between[i].Owner() != Some(id)
    requires key in LiveView(s.items, s.clock) && LiveThroughout(Next(s, BeginGet(id, key)), between, key)
    ensures Enabled(t, CheckGet(id))
    ensures Answer(t, CheckGet(id)) == Miss ==> !Untouched(Next(s, BeginGet(id, key)), between, key)
  {
    AnswerIsCurrent(before, s, id, key, between, t);
    GetAnswers(before, s, id, key, between, t);
    LiveAtEnd(Next(s, BeginGet(id, key)), between, t, key);
  }

  /** Time to live: a value set at `begun` with a ttl is visible from its commit on for as long as
      nobody writes the key and not a moment longer than its ttl, however the evictions, the reads
      and the writes of other keys interleave; with ttl 0 it stays for good. */
  lemma VisibleForItsTtl(before: seq<Step>, begun: State, id: nat, key: string, value: seq<byte>, ttl: int,
                         middle: seq<Step>, s: State, after: seq<Step>, t: State)
    requires Run(Start, before, begun) && Enabled(begun, BeginSet(id, key, value, ttl))
    requires Run(Next(begun, BeginSet(id, key, value, ttl)), middle, s)
    requires forall i :: 0 <= i < |middle| ==> middle[i].Owner() != Some(id)
    ensures Enabled(s, CommitSet(id))
    ensures Run(Next(s, CommitSet(id)), after, t) && Untouched(Next(s, CommitSet(id)), after, key) ==>
              if ttl == 0 || t.clock <= begun.clock + ttl then
                key in LiveView(t.items, t.clock) && t.items[key].value == value
              else
                key !in LiveView(t.items, t.clock)
  {
    RunInv(Start, before, begun);
    var stored := Next(begun, BeginSet(id, key, value, ttl));
    StepInv(begun, BeginSet(id, key, value, ttl));
    RunInv(stored, middle, s);
    OthersKeepOp(stored, middle, s, id);
    var committed := Next(s, CommitSet(id));
    StepInv(s, CommitSet(id));
    if Run(committed, after, t) && Untouched(committed, after, key) {
      WriteStaysVisible(committed, after, t, key);
    }
  }

  lemma WriteStaysVisible(s: State, steps: seq<Step>, t: State, key: string)
    requires Inv(s) && key in s.writes && Run(s, steps, t) && Untouched(s, steps, key)
    ensures if Expired(s.writes[key], t.clock) then key !in LiveView(t.items, t.clock)
            else key in t.items && t.items[key] == s.writes[key] && key in LiveView(t.items, t.clock)
  {
    RunInv(s, steps, t);
    UntouchedKeepsWrite(s, steps, t, key);
  }

  /** A sweep does its work in any interleaving: an entry that was expired at its time and is not
      written between its two phases is gone after the second one. */
  lemma SweepRemovesExpired(before: seq<Step>, s: State, id: nat, between: seq<Step>, t: State, key: string)
    requires Run(Start, before, s) && Enabled(s, ScanEvict(id))
    requires key in s.items && Expired(s.items[key], s.ops[id].now)
    requires Run(Next(s, ScanEvict(id)), between, t) && Untouched(Next(s, ScanEvict(id)), between, key)
    requires forall i :: 0 <= i < |between| ==> between[i].Owner() != Some(id)
    ensures Enabled(t, FinishEvict(id)) && key !in Next(t, FinishEvict(id)).items
  {
    RunInv(Start, before, s);
    SweepDeletes(s, id, between, t, key);
  }

  lemma SweepDeletes(s: State, id: nat, between: seq<Step>, t: State, key: string)
    requires Inv(s) && Enabled(s, ScanEvict(id))
    requires key in s.items && Expired(s.items[key], s.ops[id].now)
    requires Run(Next(s, ScanEvict(id)), between, t) && Untouched(Next(s, ScanEvict(id)), between, key)
    requires forall i :: 0 <= i < |between| ==> between[i].Owner() != Some(id)
    ensures Enabled(t, FinishEvict(id)) && key !in Next(t, FinishEvict(id)).items
  {
    var s' := Next(s, ScanEvict(id));
    StepInv(s, ScanEvict(id));
    RunInv(s', between, t);
    OthersKeepOp(s', between, t, id);
    UntouchedKeepsWrite(s', between, t, key);
    assert (key, s.items[key].expiration.value) in Stale(s.items, s.ops[id].now);
  }

  /** A whole sweep, begun at an instant: what was expired then and is not written until it ends is gone. */
  lemma SweepFromItsBeginning(before: seq<Step>, begun: State, id: nat, middle: seq<Step>, s: State,
                              between: seq<Step>, t: State, key: string)
    requires Run(Start, before, begun) && Enabled(begun, BeginEvict(id))
    requires Run(Next(begun, BeginEvict(id)), middle, s)
    requires forall i :: 0 <= i < |middle| ==> middle[i].Owner() != Some(id)
    requires key in s.items && s.items[key].expiration.Some? && begun.clock > s.items[key].expiration.value
    ensures Enabled(s, ScanEvict(id))
    ensures Run(Next(s, ScanEvict(id)), between, t) && Untouched(Next(s, ScanEvict(id)), between, key) &&
            (forall i :: 0 <= i < |between| ==> between[i].Owner() != Some(id)) ==>
              Enabled(t, FinishEvict(id)) && key !in Next(t, FinishEvict(id)).items
  {
    var started := Next(begun, BeginEvict(id));
    OthersKeepOp(started, middle, s, id);
    RunInv(Start, before, begun);
    StepInv(begun, BeginEvict(id));
    RunInv(started, middle, s);
    if Run(Next(s, ScanEvict(id)), between, t) && Untouched(Next(s, ScanEvict(id)), between, key) &&
       forall i :: 0 <= i < |between| ==> between[i].Owner() != Some(id) {
      SweepDeletes(s, id, between, t, key);
    }
  }

  lemma {:induction false} UntouchedStaysGone(s: State, steps: seq<Step>, t: State, key: string)
    requires Run(s, steps, t) && Untouched(s, steps, key) && key !in s.writes
    ensures key !in t.writes
    decreases |steps|
  {
    if steps != [] {
      UntouchedStaysGone(Next(s, steps[0]), steps[1..], t, key);
    }
  }

  /** After a Delete the key is gone for as long as nobody writes it, whatever evictions and Gets were
      under way: it is not in the cache at all, and a Get that begins then misses at once. */
  lemma GoneAfterDelete(before: seq<Step>, s: State, key: string, after: seq<Step>, t: State, id: nat)
    requires Run(Start, before, s)
    requires Run(Next(s, Delete(key)), after, t) && Untouched(Next(s, Delete(key)), after, key)
    ensures key !in t.items && key !in LiveView(t.items, t.clock)
    ensures Enabled(t, BeginGet(id, key)) ==> Answer(t, BeginGet(id, key)) == Miss
  {
    RunInv(Start, before, s);
    StepInv(s, Delete(key));
    RunInv(Next(s, Delete(key)), after, t);
    UntouchedStaysGone(Next(s, Delete(key)), after, t, key);
  }

  /** The lazy deletion does its work: an entry that Get found expired and that nobody writes meanwhile
      is gone when Get returns. */
  lemma LazyDeletionRemoves(before: seq<Step>, s: State, id: nat, between: seq<Step>, t: State)
    requires Run(Start, before, s) && Enabled(s, CheckGet(id)) && Answer(s, CheckGet(id)) == Miss
    requires Run(Next(s, CheckGet(id)), between, t)
    requires forall i :: 0 <= i < |between| ==> between[i].Owner() != Some(id)
    ensures Enabled(t, FinishGet(id))
    ensures var op := s.ops[id];
            op.key in t.items && t.items[op.key] == op.item ==> op.key !in Next(t, FinishGet(id)).items
  {
    OthersKeepOp(Next(s, CheckGet(id)), between, t, id);
  }

  lemma RunCons(s: State, step: Step, rest: seq<Step>, t: State)
    requires Enabled(s, step) && Run(Next(s, step), rest, t)
    ensures Run(s, [step] + rest, t)
  {
    assert ([step] + rest)[1..] == rest;
  }

  lemma LiveCons(s: State, step: Step, rest: seq<Step>, key: string)
    requires Enabled(s, step) && LiveThroughout(Next(s, step), rest, key) && key in LiveView(s.items, s.clock)
    ensures LiveThroughout(s, [step] + rest, key)
  {
    assert ([step] + rest)[1..] == rest;
  }

  const Shared := Item([1], Some(5))
  const Replacement := Item([2], None)
  const AtRead := State(5, map["k" := Shared], map["k" := Shared], map[])
  const AtCheck := State(6, map["k" := Replacement], map["k" := Replacement], map[1 := Fetched("k", Shared)])
  const Interference := Overtaking(2, "k", [2], 6)

  lemma ReadStateIsReachable()
    ensures Run(Start, [BeginSet(0, "k", [1], 5), CommitSet(0), Tick(5)], AtRead)
  {
    var s1 := Next(Start, BeginSet(0, "k", [1], 5));
    var s2 := Next(s1, CommitSet(0));
    assert Next(s2, Tick(5)) == AtRead;
    RunCons(s2, Tick(5), [], AtRead);
    RunCons(s1, CommitSet(0), [Tick(5)], AtRead);
    RunCons(Start, BeginSet(0, "k", [1], 5), [CommitSet(0), Tick(5)], AtRead);
    assert [CommitSet(0)] + [Tick(5)] == [CommitSet(0), Tick(5)];
    assert [BeginSet(0, "k", [1], 5)] + [CommitSet(0), Tick(5)] == [BeginSet(0, "k", [1], 5), CommitSet(0), Tick(5)];
  }

  /** A reachable run in which the key is live in every state from before Get's read to its clock
      check, and Get still reports a miss: the entry it read expires after a fresh one was stored.
      Misses are therefore not linearizable; `FalseMissIff` says exactly when
      that can happen. */
  lemma MissDespiteFreshValue()
    ensures exists before: seq<Step> :: Run(Start, before, AtRead)
    ensures Enabled(AtRead, BeginGet(1, "k")) && Run(Next(AtRead, BeginGet(1, "k")), Interference, AtCheck)
    ensures Enabled(AtCheck, CheckGet(1)) && Answer(AtCheck, CheckGet(1)) == Miss
    ensures LiveThroughout(AtRead, [BeginGet(1, "k")] + Interference, "k")
  {
    ReadStateIsReachable();
    var s1 := Next(AtRead, BeginGet(1, "k"));
    Overtakes(s1, 2, "k", [2], 6);
    assert Overtaken(s1, 2, "k", [2], 6) == AtCheck;
    LiveCons(AtRead, BeginGet(1, "k"), Interference, "k");
  }

  /** A writer that stores a value for good and finishes before the clock moves on to `now`. */
  function Overtaking(id: nat, key: string, value: seq<byte>, now: int): (steps: seq<Step>)
    ensures forall i :: 0 <= i < |steps| ==> steps[i].Owner() == None || steps[i].Owner() == Some(id)
  {
    [BeginSet(id, key, value, 0), CommitSet(id), Tick(now)]
  }

  function Overtaken(s: State, id: nat, key: string, value: seq<byte>, now: int): State {
    State(now, s.items[key := Item(value, None)], s.writes[key := Item(value, None)], s.ops - {id})
  }

  lemma Overtakes(s: State, id: nat, key: string, value: seq<byte>, now: int)
    requires id !in s.ops && s.clock <= now
    ensures Run(s, Overtaking(id, key, value, now), Overtaken(s, id, key, value, now))
    ensures key in LiveView(s.items, s.clock) ==> LiveThroughout(s, Overtaking(id, key, value, now), key)
  {
    var begin := BeginSet(id, key, value, 0);
    var s1 := Next(s, begin);
    var s2 := Next(s1, CommitSet(id));
    var t := Overtaken(s, id, key, value, now);
    assert Next(s2, Tick(now)) == t;
    RunCons(s2, Tick(now), [], t);
    RunCons(s1, CommitSet(id), [Tick(now)], t);
    assert [CommitSet(id)] + [Tick(now)] == [CommitSet(id), Tick(now)];
    RunCons(s, begin, [CommitSet(id), Tick(now)], t);
    assert [begin] + [CommitSet(id), Tick(now)] == Overtaking(id, key, value, now);
    if key in LiveView(s.items, s.clock) {
      assert LiveThroughout(t, [], key);
      LiveCons(s2, Tick(now), [], key);
      LiveCons(s1, CommitSet(id), [Tick(now)], key);
      LiveCons(s, begin, [CommitSet(id), Tick(now)], key);
    }
  }

  /** The Get of `key` that reads at s can report a miss at t although the key is live there. */
  ghost predicate FalseMiss(s: State, id: nat, key: string, between: seq<Step>, t: State)
    requires Enabled(s, BeginGet(id, key))
  {
    && Run(Next(s, BeginGet(id, key)), between, t)
    && (forall i :: 0 <= i < |between| ==> between[i].Owner() != Some(id))
    && Enabled(t, CheckGet(id))
    && Answer(t, CheckGet(id)) == Miss
    && key in LiveView(t.items, t.clock)
  }

  /** When a miss can be false, exactly, in terms of the entry that is read: some interleaving makes the
      Get miss on a key that is live at its clock check if and only if the entry has an expiration,
      and on a key that is live all the time from the read to the check if and only if, besides, the
      entry is live when it is read. */
  lemma FalseMissIff(before: seq<Step>, s: State, id: nat, key: string)
    requires Run(Start, before, s) && Enabled(s, BeginGet(id, key)) && key in s.items
    ensures (exists between: seq<Step>, t: State :: FalseMiss(s, id, key, between, t))
            <==> s.items[key].expiration.Some?
    ensures (exists between: seq<Step>, t: State ::
               FalseMiss(s, id, key, between, t) && LiveThroughout(Next(s, BeginGet(id, key)), between, key))
            <==> s.items[key].expiration.Some? && key in LiveView(s.items, s.clock)
  {
    if s.items[key].expiration.Some? {
      var between, t := OvertakenGet(s, id, key);
    }
    forall between: seq<Step>, t: State | FalseMiss(s, id, key, between, t) ensures s.items[key].expiration.Some? {
      GetAnswers(before, s, id, key, between, t);
      RunInv(Start, before, s);
    }
  }

  lemma OvertakenGet(s: State, id: nat, key: string) returns (between: seq<Step>, t: State)
    requires Enabled(s, BeginGet(id, key)) && key in s.items && s.items[key].expiration.Some?
    ensures FalseMiss(s, id, key, between, t)
    ensures key in LiveView(s.items, s.clock) ==> LiveThroughout(Next(s, BeginGet(id, key)), between, key)
  {
    var s' := Next(s, BeginGet(id, key));
    var writer := FreshId(s'.ops.Keys);
    var late := s.items[key].expiration.value + 1;
    var now := if s.clock < late then late else s.clock;
    between, t := Overtaking(writer, key, [], now), Overtaken(s', writer, key, [], now);
    Overtakes(s', writer, key, [], now);
  }

  /** A whole eviction without interference removes every expired entry and keeps the rest. */
  lemma UndisturbedEviction(items: map<string, Item>, now: int)
    ensures DeleteStale(items, Stale(items, now)) == LiveView(items, now)
  {
  }
}
