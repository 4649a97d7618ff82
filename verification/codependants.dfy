/** `CodependantHelper`: an owner keeps a set of co-dependant armables and a set
    of co-dependant enableables, connects each newcomer back to itself once,
    and pushes an armed or enabled flag to every member. */
module Codependants {
  import opened Wrappers

  datatype Armable = Armable(id: nat)
  datatype Enableable = Enableable(id: nat)

  /** A call `member.connectCodependant…(owner)`. */
  datatype Connection<T> = Connection(member: T, owner: T)

  /** One of the helper's two sets, with the owner it connects members to. */
  datatype CodependantSet<T> = CodependantSet(owner: Option<T>, members: set<T>)

  /** `addCodependant…`: a new member joins and is connected to the owner; a
      known member, or any member when there is no owner, changes nothing. */
  function Add<T>(c: CodependantSet<T>, x: T): (r: (CodependantSet<T>, Option<Connection<T>>))
    ensures r.0.owner == c.owner && c.members <= r.0.members
    ensures c.owner.Some? ==> x in r.0.members
    ensures r.1.Some? <==> c.owner.Some? && x !in c.members
    ensures r.1.Some? ==> r.1.value == Connection(x, c.owner.value) && r.0.members == c.members + {x}
    ensures r.1.None? ==> r.0 == c
  {
    if c.owner.Some? && x !in c.members then (c.(members := c.members + {x}), Some(Connection(x, c.owner.value)))
    else (c, None)
  }

  /** Adding the same member again neither changes the set nor connects it again. */
  lemma AddIsIdempotent<T>(c: CodependantSet<T>, x: T)
    ensures Add(Add(c, x).0, x) == (Add(c, x).0, None)
  {
  }

  /** Adds the members of `xs` in order, collecting the connection calls made. */
  function AddAll<T>(c: CodependantSet<T>, xs: seq<T>): (r: (CodependantSet<T>, seq<Connection<T>>))
    ensures r.0.owner == c.owner
    decreases |xs|
  {
    if |xs| == 0 then (c, [])
    else
      var (c1, o) := Add(c, xs[0]);
      var (c2, rest) := AddAll(c1, xs[1..]);
      (c2, (if o.Some? then [o.value] else []) + rest)
  }

  /** The members the connection calls were made on, in order. */
  function Connected<T>(cs: seq<Connection<T>>): (r: seq<T>)
    ensures |r| == |cs| && forall k :: 0 <= k < |cs| ==> r[k] == cs[k].member
    decreases |cs|
  {
    if |cs| == 0 then [] else [cs[0].member] + Connected(cs[1..])
  }

  /** With an owner, adding a sequence of candidates makes the set their union
      with the old members; without one nothing happens. */
  lemma {:induction false} AddAllMembers<T>(c: CodependantSet<T>, xs: seq<T>)
    ensures c.owner.None? ==> AddAll(c, xs) == (c, [])
    ensures c.owner.Some? ==> AddAll(c, xs).0.members == c.members + set x | x in xs
    decreases |xs|
  {
    if |xs| > 0 {
      var (c1, o) := Add(c, xs[0]);
      AddAllMembers(c1, xs[1..]);
      if c.owner.None? {
        assert c1 == c && o.None?;
        assert AddAll(c1, xs[1..]) == (c, []);
        assert AddAll(c, xs).1 == [] + AddAll(c1, xs[1..]).1;
        assert AddAll(c, xs).0 == AddAll(c1, xs[1..]).0;
      }
      assert xs == [xs[0]] + xs[1..];
      assert (set x | x in xs) == {xs[0]} + set x | x in xs[1..];
    }
  }

  lemma {:induction false} ConnectedConcat<T>(a: seq<Connection<T>>, b: seq<Connection<T>>)
    ensures Connected(a + b) == Connected(a) + Connected(b)
    decreases |a|
  {
    if |a| > 0 {
      assert (a + b)[1..] == a[1..] + b;
      ConnectedConcat(a[1..], b);
    } else {
      assert a + b == b;
    }
  }

  /** Every connection made while adding a sequence is to the owner. */
  lemma {:induction false} AddAllConnectsToOwner<T>(c: CodependantSet<T>, xs: seq<T>)
    ensures forall k :: 0 <= k < |AddAll(c, xs).1| ==> c.owner == Some(AddAll(c, xs).1[k].owner)
    decreases |xs|
  {
    if |xs| > 0 {
      var (c1, o) := Add(c, xs[0]);
      AddAllConnectsToOwner(c1, xs[1..]);
    }
  }

  /** Each candidate that was not already a member is connected exactly once,
      and no one else is connected. */
  lemma {:induction false} AddAllConnectsEachNewcomerOnce<T>(c: CodependantSet<T>, xs: seq<T>, x: T)
    ensures multiset(Connected(AddAll(c, xs).1))[x] == if c.owner.Some? && x in xs && x !in c.members then 1 else 0
    decreases |xs|
  {
    if |xs| > 0 {
      var (c1, o) := Add(c, xs[0]);
      AddAllConnectsEachNewcomerOnce(c1, xs[1..], x);
      var rest := AddAll(c1, xs[1..]).1;
      var head: seq<Connection<T>> := if o.Some? then [o.value] else [];
      assert AddAll(c, xs).1 == head + rest;
      ConnectedConcat(head, rest);
      assert multiset(Connected(head + rest)) == multiset(Connected(head)) + multiset(Connected(rest));
      assert x in xs <==> x == xs[0] || x in xs[1..];
      if o.Some? {
        assert Connected(head) == [xs[0]];
      } else {
        assert Connected(head) == [];
      }
    }
  }

  /** `setCodependant…`: every member ends with the flag; the setter is invoked
      exactly on the members whose flag differed; non-members keep their flag. */
  method SetAll<T>(members: set<T>, flags: map<T, bool>, value: bool) returns (flags': map<T, bool>, invoked: set<T>)
    requires members <= flags.Keys
    ensures flags'.Keys == flags.Keys
    ensures forall x :: x in members ==> flags'[x] == value
    ensures forall x :: x in flags && x !in members ==> flags'[x] == flags[x]
    ensures invoked == set x | x in members && flags[x] != value
  {
    flags' := flags;
    invoked := {};
    var remaining := members;
    while remaining != {}
      invariant remaining <= members
      invariant flags'.Keys == flags.Keys
      invariant forall x :: x in members && x !in remaining ==> flags'[x] == value
      invariant forall x :: x in flags && (x !in members || x in remaining) ==> flags'[x] == flags[x]
      invariant invoked == set x | x in members && x !in remaining && flags[x] != value
      decreases remaining
    {
      var x :| x in remaining;
      if flags'[x] != value {
        flags' := flags'[x := value];
        invoked := invoked + {x};
      }
      remaining := remaining - {x};
    }
  }

  /** The helper: an armable set and an enableable set, each with its own owner. */
  datatype Helper = Helper(armables: CodependantSet<Armable>, enableables: CodependantSet<Enableable>)

  function NewHelper(armableOwner: Option<Armable>, enableableOwner: Option<Enableable>): (h: Helper)
    ensures h.armables.members == {} && h.enableables.members == {}
    ensures h.armables.owner == armableOwner && h.enableables.owner == enableableOwner
  {
    Helper(CodependantSet(armableOwner, {}), CodependantSet(enableableOwner, {}))
  }

  function AddCodependantArmable(h: Helper, a: Armable): (r: (Helper, Option<Connection<Armable>>))
    ensures r.0.enableables == h.enableables
    ensures (r.0.armables, r.1) == Add(h.armables, a)
  {
    var (s, o) := Add(h.armables, a);
    (h.(armables := s), o)
  }

  function AddCodependantEnableable(h: Helper, e: Enableable): (r: (Helper, Option<Connection<Enableable>>))
    ensures r.0.armables == h.armables
    ensures (r.0.enableables, r.1) == Add(h.enableables, e)
  {
    var (s, o) := Add(h.enableables, e);
    (h.(enableables := s), o)
  }

  /** Pushes the armed flag to the armables; enableables are not involved. */
  method SetCodependantArmed(h: Helper, armed: map<Armable, bool>, value: bool) returns (armed': map<Armable, bool>, invoked: set<Armable>)
    requires h.armables.members <= armed.Keys
    ensures armed'.Keys == armed.Keys
    ensures forall a :: a in h.armables.members ==> armed'[a] == value
    ensures forall a :: a in armed && a !in h.armables.members ==> armed'[a] == armed[a]
    ensures invoked == set a | a in h.armables.members && armed[a] != value
  {
    armed', invoked := SetAll(h.armables.members, armed, value);
  }

  /** Pushes the enabled flag to the enableables; armables are not involved. */
  method SetCodependantEnabled(h: Helper, enabled: map<Enableable, bool>, value: bool) returns (enabled': map<Enableable, bool>, invoked: set<Enableable>)
    requires h.enableables.members <= enabled.Keys
    ensures enabled'.Keys == enabled.Keys
    ensures forall e :: e in h.enableables.members ==> enabled'[e] == value
    ensures forall e :: e in enabled && e !in h.enableables.members ==> enabled'[e] == enabled[e]
    ensures invoked == set e | e in h.enableables.members && enabled[e] != value
  {
    enabled', invoked := SetAll(h.enableables.members, enabled, value);
  }
}
