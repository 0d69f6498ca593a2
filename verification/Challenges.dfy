/**
 * The store of pending challenges: at most one per client address, overwritten by every new challenge, consumed
 * by every attempt to redeem it, and emptied of stale entries by purges that run beside the requests.
 */
module Challenges {
  import opened Bytes

  type Address = string

  /** Clock readings are nanoseconds on an arbitrary clock; 0 is the zero time of a fresh store. */
  const MINUTE: nat := 60_000_000_000

  datatype Entry = Entry(value: u32, expiry: nat)

  /** A purge in flight: its epoch, and the key it has judged stale but not deleted yet. */
  datatype Purge = Purge(epoch: nat, marked: Option<Address>)

  datatype Store = Store(entries: map<Address, Entry>, lastPurged: nat, purges: seq<Purge>)

  datatype Match = Matched | NoChallenge | Mismatch

  const FRESH := Store(map[], 0, [])

  // ---------------------------------------------------------------- the atomic steps on the store

  predicate Stale(epoch: nat, e: Entry) {
    epoch > e.expiry
  }

  /** The first part of a generation: launch a purge if the clock has moved since the last one. */
  function LaunchPurge(s: Store, check: nat, stamp: nat, epoch: nat): Store {
    if check > s.lastPurged then s.(lastPurged := stamp, purges := s.purges + [Purge(epoch, None)]) else s
  }

  function Issue(s: Store, a: Address, value: u32, now: nat): Store {
    s.(entries := s.entries[a := Entry(value, now + MINUTE)])
  }

  function Redeem(s: Store, a: Address, challenge: u32): (Store, Match) {
    if a !in s.entries then (s, NoChallenge)
    else (s.(entries := s.entries - {a}), if challenge == s.entries[a].value then Matched else Mismatch)
  }

  /** A purge loads one key and compares the entry's expiry with its epoch. */
  function Visit(s: Store, p: nat, k: Address): Store {
    if p >= |s.purges| then s else
      var epoch := s.purges[p].epoch;
      var mark := if k in s.entries && Stale(epoch, s.entries[k]) then Some(k) else None;
      s.(purges := s.purges[p := Purge(epoch, mark)])
  }

  /** A purge deletes the key it has just judged stale, whatever is stored there by now. */
  function Delete(s: Store, p: nat): Store {
    if p >= |s.purges| || s.purges[p].marked.None? then s else
      s.(entries := s.entries - {s.purges[p].marked.value},
         purges := s.purges[p := s.purges[p].(marked := None)])
  }

  /** One step of a purge in flight. */
  datatype PurgeStep = VisitKey(p: nat, k: Address) | DeleteMarked(p: nat)

  function Move(s: Store, step: PurgeStep): Store {
    match step
    case VisitKey(p, k) => Visit(s, p, k)
    case DeleteMarked(p) => Delete(s, p)
  }

  function Moves(s: Store, steps: seq<PurgeStep>): Store
    decreases |steps|
  {
    if steps == [] then s else Moves(Move(s, steps[0]), steps[1..])
  }

  // ---------------------------------------------------------------- the store as the program keeps it

  class QueryBase {
    var entries: map<Address, Entry>
    var lastPurged: nat
    var purges: seq<Purge>

    ghost function Abs(): Store
      reads this
    {
      Store(entries, lastPurged, purges)
    }

    constructor ()
      ensures Abs() == FRESH
    {
      entries, lastPurged, purges := map[], 0, [];
    }

    /**
     * `draw` is the outcome of the random source; the four clock readings are in program order; `beside` are the
     * steps that purges in flight, the one just launched among them, take before the challenge is stored.
     */
    method GenerateChallenge(a: Address, check: nat, stamp: nat, epoch: nat, beside: seq<PurgeStep>,
                             draw: Option<u32>, now: nat)
      returns (v: Option<u32>)
      modifies this
      ensures v == draw
      ensures var s := Moves(LaunchPurge(old(Abs()), check, stamp, epoch), beside);
              Abs() == if draw.None? then s else Issue(s, a, draw.value, now)
    {
      if check > lastPurged {
        lastPurged := stamp;
        purges := purges + [Purge(epoch, None)];
      }
      PurgesRun(beside);
      if draw.None? {
        return None;
      }
      entries := entries[a := Entry(draw.value, now + MINUTE)];
      return draw;
    }

    method ChallengeMatchesForClient(a: Address, challenge: u32) returns (m: Match)
      modifies this`entries
      ensures (Abs(), m) == Redeem(old(Abs()), a, challenge)
    {
      if a !in entries {
        return NoChallenge;
      }
      var expected := entries[a];
      entries := entries - {a};
      if challenge != expected.value {
        return Mismatch;
      }
      return Matched;
    }

    method VisitOne(p: nat, k: Address)
      modifies this`purges
      ensures Abs() == Visit(old(Abs()), p, k)
    {
      if p < |purges| {
        var stale := k in entries && purges[p].epoch > entries[k].expiry;
        purges := purges[p := purges[p].(marked := if stale then Some(k) else None)];
      }
    }

    method DeleteOne(p: nat)
      modifies this`purges, this`entries
      ensures Abs() == Delete(old(Abs()), p)
    {
      if p < |purges| && purges[p].marked.Some? {
        entries := entries - {purges[p].marked.value};
        purges := purges[p := purges[p].(marked := None)];
      }
    }

    /** The purge goroutines take these steps, in this order. */
    method PurgesRun(steps: seq<PurgeStep>)
      modifies this`purges, this`entries
      ensures Abs() == Moves(old(Abs()), steps)
    {
      var i := 0;
      while i < |steps|
        invariant 0 <= i <= |steps| && lastPurged == old(lastPurged)
        invariant Moves(Abs(), steps[i..]) == Moves(old(Abs()), steps)
      {
        assert steps[i..][0] == steps[i] && steps[i..][1..] == steps[i + 1..];
        match steps[i] {
          case VisitKey(p, k) => VisitOne(p, k);
          case DeleteMarked(p) => DeleteOne(p);
        }
        i := i + 1;
      }
    }

    /** With nothing running beside it, a purge leaves exactly the entries whose expiry is not before its epoch. */
    method PurgeStaleChallenges(p: nat)
      requires p < |purges| && purges[p].marked.None?
      modifies this`purges, this`entries
      ensures entries == Unexpired(old(entries), old(purges)[p].epoch)
      ensures purges == old(purges)
    {
      var keys := entries.Keys;
      var epoch := purges[p].epoch;
      while keys != {}
        invariant purges == old(purges) && epoch == old(purges)[p].epoch
        invariant keys <= entries.Keys <= old(entries).Keys
        invariant forall k :: k in entries ==> entries[k] == old(entries)[k]
        invariant forall k :: k in old(entries) && k !in keys ==> (k in entries <==> !Stale(epoch, old(entries)[k]))
        decreases keys
      {
        var k :| k in keys;
        VisitOne(p, k);
        if purges[p].marked.Some? {
          DeleteOne(p);
        }
        keys := keys - {k};
      }
    }
  }

  // ---------------------------------------------------------------- a whole purge

  function Unexpired(m: map<Address, Entry>, epoch: nat): (r: map<Address, Entry>)
    ensures forall k :: k in r <==> k in m && epoch <= m[k].expiry
  {
    map k | k in m && !Stale(epoch, m[k]) :: m[k]
  }

  /** A purge visiting the given keys in order, deleting what it finds stale. */
  function Sweep(s: Store, p: nat, keys: seq<Address>): Store
    decreases |keys|
  {
    if keys == [] then s else Sweep(Delete(Visit(s, p, keys[0]), p), p, keys[1..])
  }

  /**
   * Any order of visits that covers the store, repeats allowed, leaves exactly the unexpired entries; an
   * incomplete order has removed nothing else.
   */
  lemma {:induction false} SweepExact(s: Store, p: nat, keys: seq<Address>)
    requires p < |s.purges| && s.purges[p].marked.None?
    ensures var t := Sweep(s, p, keys);
            && t.purges == s.purges && t.lastPurged == s.lastPurged
            && (forall k :: k in t.entries <==> k in s.entries && (k !in keys || !Stale(s.purges[p].epoch, s.entries[k])))
            && (forall k :: k in t.entries ==> t.entries[k] == s.entries[k])
            && ((forall k :: k in s.entries ==> k in keys) ==> t.entries == Unexpired(s.entries, s.purges[p].epoch))
    decreases |keys|
  {
    if keys != [] {
      var next := Delete(Visit(s, p, keys[0]), p);
      assert next.purges == s.purges;
      SweepExact(next, p, keys[1..]);
      assert forall k :: k in keys <==> k == keys[0] || k in keys[1..];
    }
  }
}
