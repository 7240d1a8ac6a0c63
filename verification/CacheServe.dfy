/** One `InMemoryCache` object under its callers and its sweeper. */
module CacheServe {
  import opened Wrappers
  import opened CacheProtocol
  import opened InMemoryCache

  /** The local variables of an operation between two locked sections. */
  datatype Local =
    | Storing(key: string, item: CacheItem)
    | Fetched(key: string, item: CacheItem)
    | Condemned(key: string, deadline: int)
    | Sweeping(now: int)
    | Swept(expired: seq<(string, int)>)
  {
    /** The operation of the step system that it is in. */
    ghost function View(): Op
      reads if Storing? || Fetched? then {item.value} else {}
    {
      match this
      case Storing(key, item) => Op.Storing(key, Item(item.value[..], item.expiration))
      case Fetched(key, item) => Op.Fetched(key, Item(item.value[..], item.expiration))
      case Condemned(key, deadline) => Op.Condemned(key, deadline)
      case Sweeping(now) => Op.Sweeping(now)
      case Swept(expired) => Op.Swept(Pairs(expired))
    }
  }

  /** What the Gets of a run report, in the order of their steps. */
  function Replies(s: State, steps: seq<Step>): seq<Reply>
    decreases |steps|
  {
    if steps == [] || !Enabled(s, steps[0]) then []
    else Reported(s, steps[0]) + Replies(Next(s, steps[0]), steps[1..])
  }

  /** What one step reports. */
  function Reported(s: State, step: Step): seq<Reply>
    requires Enabled(s, step)
  {
    if Answer(s, step).Pending? then [] else [Answer(s, step)]
  }

  lemma OneStep(s: State, steps: seq<Step>, end: State, k: nat, before: seq<Reply>, all: seq<Reply>)
    requires k < |steps| && Run(s, steps[k..], end)
    requires all == before + Replies(s, steps[k..])
    ensures Enabled(s, steps[k]) && Run(Next(s, steps[k]), steps[k + 1..], end)
    ensures all == before + Reported(s, steps[k]) + Replies(Next(s, steps[k]), steps[k + 1..])
  {
    assert steps[k..][0] == steps[k] && steps[k..][1..] == steps[k + 1..];
    assert Replies(s, steps[k..]) == Reported(s, steps[k]) + Replies(Next(s, steps[k]), steps[k + 1..]);
  }

  /** The object together with the operations in progress and what they have answered. */
  class Site {
    const cache: Cache
    var locals: map<nat, Local>
    var clock: int
    var replies: seq<Reply>

    /** The arrays that the operations in progress hold. */
    ghost function Held(): set<object>
      reads this`locals
    {
      set id | id in locals && (locals[id].Storing? || locals[id].Fetched?) :: locals[id].item.value
    }

    /** The operations in progress, as the step system sees them. */
    ghost function Ops(): map<nat, Op>
      reads this`locals, Held()
    {
      map id | id in locals :: locals[id].View()
    }

    /** The site is in the state s of the step system. */
    ghost predicate At(s: State)
      reads this, cache, cache.Owned(), Held()
    {
      cache.View() == s.items && clock == s.clock && Ops() == s.ops
    }

    constructor ()
      ensures At(Start) && replies == [] && fresh(cache)
    {
      cache := new Cache();
      locals := map[];
      clock := 0;
      replies := [];
    }

    /** An operation goes on to its next section, */
    method Put(id: nat, l: Local)
      modifies this`locals
      ensures locals == old(locals)[id := l] && Ops() == old(Ops())[id := l.View()]
    {
      locals := locals[id := l];
    }

    /** or ends. */
    method Drop(id: nat)
      modifies this`locals
      ensures locals == old(locals) - {id} && Ops() == old(Ops()) - {id}
    {
      locals := locals - {id};
    }

    method BeginSet(id: nat, key: string, value: seq<byte>, ttl: int)
      modifies this`locals
      ensures Ops() == old(Ops())[id := Op.Storing(key, Item(value, Deadline(ttl, clock)))]
    {
      var copy := Buffer(value);
      Put(id, Local.Storing(key, CacheItem(copy, Deadline(ttl, clock))));
    }

    /** The caller's bytes, copied. */
    method Buffer(value: seq<byte>) returns (copy: array<byte>)
      ensures fresh(copy) && copy[..] == value
    {
      var bytes := new byte[|value|](i requires 0 <= i < |value| => value[i]);
      assert bytes[..] == value;
      copy := cache.Copy(bytes);
    }

    method CommitSet(id: nat)
      requires id in locals && locals[id].Storing?
      modifies this`locals, cache
      ensures Ops() == old(Ops()) - {id}
      ensures cache.View() == old(cache.View())[old(locals[id].key) := old(Ops()[id].item)]
    {
      var l := locals[id];
      Drop(id);
      cache.Store(l.key, l.item);
    }

    method BeginGet(id: nat, key: string)
      modifies this`locals, this`replies
      ensures key in cache.View() ==>
                replies == old(replies) && Ops() == old(Ops())[id := Op.Fetched(key, cache.View()[key])]
      ensures key !in cache.View() ==> replies == old(replies) + [Miss] && Ops() == old(Ops())
    {
      var found := cache.Fetch(key);
      if found.Some? {
        Put(id, Local.Fetched(key, found.value));
      } else {
        replies := replies + [Miss];
      }
    }

    method CheckGet(id: nat)
      requires id in locals && locals[id].Fetched?
      modifies this`locals, this`replies
      ensures var op := old(Ops()[id]);
              if Expired(op.item, clock) then
                && replies == old(replies) + [Miss]
                && Ops() == old(Ops())[id := Op.Condemned(op.key, op.item.expiration.value)]
              else
                replies == old(replies) + [Hit(op.item.value)] && Ops() == old(Ops()) - {id}
    {
      var key, item := locals[id].key, locals[id].item;
      assert Ops()[id] == Op.Fetched(key, Item(item.value[..], item.expiration));
      if item.expiration.Some? && clock > item.expiration.value {
        Refuse(id, key, item.expiration.value);
      } else {
        HandOut(item.value);
        Drop(id);
      }
    }

    method Refuse(id: nat, key: string, deadline: int)
      modifies this`locals, this`replies
      ensures replies == old(replies) + [Miss] && Ops() == old(Ops())[id := Op.Condemned(key, deadline)]
    {
      replies := replies + [Miss];
      Put(id, Local.Condemned(key, deadline));
    }

    /** A hit hands out a copy. */
    method HandOut(value: array<byte>)
      modifies this`replies
      ensures replies == old(replies) + [Hit(value[..])]
    {
      var copy := cache.Copy(value);
      replies := replies + [Hit(copy[..])];
    }

    method FinishGet(id: nat)
      requires id in locals && locals[id].Condemned?
      modifies this`locals, cache
      ensures Ops() == old(Ops()) - {id}
      ensures cache.View() == DeleteStale(old(cache.View()), {(old(locals[id].key), old(locals[id].deadline))})
    {
      var l := locals[id];
      Drop(id);
      cache.DeleteIfUnchanged(l.key, l.deadline);
    }

    method ScanEvict(id: nat)
      requires id in locals && locals[id].Sweeping?
      modifies this`locals
      ensures Ops() == old(Ops())[id := Op.Swept(Stale(cache.View(), old(locals[id].now)))]
    {
      var expired := cache.ScanExpired(locals[id].now);
      ghost var view := cache.View();
      Put(id, Local.Swept(expired));
      assert cache.View() == view;
    }

    method FinishEvict(id: nat)
      requires id in locals && locals[id].Swept?
      modifies this`locals, cache
      ensures Ops() == old(Ops()) - {id}
      ensures cache.View() == DeleteStale(old(cache.View()), Pairs(old(locals[id].expired)))
    {
      var l := locals[id];
      Drop(id);
      cache.DeleteExpired(l.expired);
    }

    /** The kinds of the operations in progress match. */
    lemma SameKinds(s: State, id: nat)
      requires At(s) && id in s.ops
      ensures id in locals && locals[id].View() == s.ops[id]
    {
      assert id in Ops();
    }

    /** The next section of a Get, */
    method DoGet(step: Step, ghost s: State)
      requires At(s) && Enabled(s, step) && (step.BeginGet? || step.CheckGet? || step.FinishGet?)
      modifies this, cache
      ensures At(Next(s, step)) && replies == old(replies) + Reported(s, step)
    {
      match step
      case BeginGet(id, key) => BeginGet(id, key);
      case CheckGet(id) => SameKinds(s, id); CheckGet(id);
      case FinishGet(id) => SameKinds(s, id); FinishGet(id);
    }

    /** of a sweep, */
    method DoEvict(step: Step, ghost s: State)
      requires At(s) && Enabled(s, step) && (step.BeginEvict? || step.ScanEvict? || step.FinishEvict?)
      modifies this, cache
      ensures At(Next(s, step)) && replies == old(replies)
    {
      match step
      case BeginEvict(id) => Put(id, Local.Sweeping(clock));
      case ScanEvict(id) => SameKinds(s, id); ScanEvict(id);
      case FinishEvict(id) => SameKinds(s, id); FinishEvict(id);
    }

    /** or of anything. */
    method Do(step: Step, ghost s: State)
      requires At(s) && Enabled(s, step)
      modifies this, cache
      ensures At(Next(s, step)) && replies == old(replies) + Reported(s, step)
    {
      if step.BeginGet? || step.CheckGet? || step.FinishGet? {
        DoGet(step, s);
      } else if step.BeginEvict? || step.ScanEvict? || step.FinishEvict? {
        DoEvict(step, s);
      } else {
        match step
        case Tick(now) => clock := now;
        case BeginSet(id, key, value, ttl) => BeginSet(id, key, value, ttl);
        case CommitSet(id) => SameKinds(s, id); CommitSet(id);
        case Delete(key) => cache.Delete(key);
      }
    }
  }

  /** For every interleaving of the locked sections and clock readings of its operations, the object
      ends with the entries of the step system, and the Gets report what they report there. */
  method Serve(steps: seq<Step>, ghost end: State) returns (cache: Cache, replies: seq<Reply>)
    requires Run(Start, steps, end)
    ensures fresh(cache) && cache.View() == end.items
    ensures replies == Replies(Start, steps)
  {
    var site := new Site();
    ghost var s, all := Start, Replies(Start, steps);
    assert steps[0..] == steps;
    for k := 0 to |steps|
      invariant fresh(site) && fresh(site.cache) && site.At(s)
      invariant Run(s, steps[k..], end)
      invariant all == site.replies + Replies(s, steps[k..])
    {
      OneStep(s, steps, end, k, site.replies, all);
      site.Do(steps[k], s);
      s := Next(s, steps[k]);
    }
    assert steps[|steps|..] == [];
    return site.cache, site.replies;
  }
}
