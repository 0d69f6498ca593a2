/**
 * Runs of the challenge handshake: requests from any number of clients, interleaved in any order with the steps of
 * any number of purges in flight. A request for a challenge is two events, the purge launch and the store access,
 * so that purge steps may fall between them. Here: safety, conservation and non-interference over every run.
 */
module Handshake {
  import opened Bytes
  import opened Game
  import opened Challenges
  import opened Responder

  type Packet = b: seq<byte> | |b| >= 5 witness [0, 0, 0, 0, 0]

  datatype Event =
    | Begin(check: nat, stamp: nat, epoch: nat)
    | Request(a: Address, buf: Packet, draw: Option<u32>, now: nat, qs: Option<QueryState>)
    | Purging(step: PurgeStep)

  function Next(cfg: Setting, s: Store, e: Event): Store {
    match e
    case Begin(check, stamp, epoch) => LaunchPurge(s, check, stamp, epoch)
    case Request(a, buf, draw, now, qs) => StoreAfter(cfg, s, a, buf, draw, now)
    case Purging(step) => Move(s, step)
  }

  function Reply(cfg: Setting, s: Store, e: Event): Outcome
    requires e.Request?
  {
    OutcomeOf(cfg, s, e.a, e.buf, e.draw, e.qs)
  }

  /** The store after a run from the start. */
  function After(cfg: Setting, run: seq<Event>): Store {
    if run == [] then FRESH else Next(cfg, After(cfg, run[..|run| - 1]), run[|run| - 1])
  }

  lemma AfterSnoc(cfg: Setting, run: seq<Event>, e: Event)
    ensures After(cfg, run + [e]) == Next(cfg, After(cfg, run), e)
  {
    assert (run + [e])[..|run|] == run;
  }

  function ReplyAt(cfg: Setting, run: seq<Event>, j: nat): Outcome
    requires j < |run| && run[j].Request?
  {
    Reply(cfg, After(cfg, run[..j]), run[j])
  }

  /** The event hands a challenge out to `a`. */
  predicate Issues(cfg: Setting, e: Event, a: Address) {
    e.Request? && e.a == a && IntentOf(cfg, e.buf).Ask? && e.draw.Some?
  }

  /** The event tries to redeem a challenge as `a`, successfully or not. */
  predicate Attempts(cfg: Setting, e: Event, a: Address) {
    e.Request? && e.a == a && IntentOf(cfg, e.buf).Redeems?
  }

  /** An outcome that only a matching challenge can produce. */
  predicate Accepted(o: Outcome) {
    o.Informed? || o.Crashed? || (o.Failed? && o.error.UnsupportedVersion?)
  }

  /** The event is the deletion of k's entry by a purge. */
  predicate Deletes(s: Store, e: Event, k: Address) {
    e.Purging? && e.step.DeleteMarked? && e.step.p < |s.purges| && s.purges[e.step.p].marked == Some(k)
  }

  /** How one event treats the entry of one key. */
  lemma EntryStep(cfg: Setting, s: Store, e: Event, k: Address)
    ensures var t := Next(cfg, s, e);
            && (Issues(cfg, e, k) ==> k in t.entries && t.entries[k] == Entry(e.draw.value, e.now + MINUTE))
            && (!Issues(cfg, e, k) && k in t.entries ==>
                  k in s.entries && t.entries[k] == s.entries[k] && !Attempts(cfg, e, k))
            && (!(e.Request? && e.a == k) && k in s.entries ==> (k in t.entries <==> !Deletes(s, e, k)))
  {
  }

  /** A redeeming request is accepted exactly if the value it carries is stored for its address. */
  lemma RedeemOutcome(cfg: Setting, s: Store, e: Event)
    requires e.Request?
    ensures Accepted(Reply(cfg, s, e)) <==>
              Attempts(cfg, e, e.a) && e.a in s.entries && s.entries[e.a].value == IntentOf(cfg, e.buf).challenge
    ensures Accepted(Reply(cfg, s, e)) ==> Reply(cfg, s, e) == Answer(cfg, e.qs, e.buf)
  {
  }

  /** An attempt fails for want of a challenge exactly if none is stored, for another one exactly if that is stored. */
  lemma AttemptOutcome(cfg: Setting, s: Store, e: Event)
    requires e.Request? && Attempts(cfg, e, e.a)
    ensures Reply(cfg, s, e) == Failed(NoChallengeStored) <==> e.a !in s.entries
    ensures Reply(cfg, s, e) == Failed(ChallengeMismatch) <==>
              e.a in s.entries && s.entries[e.a].value != IntentOf(cfg, e.buf).challenge
    ensures Next(cfg, s, e) == s.(entries := s.entries - {e.a})
  {
    if e.a !in s.entries {
      assert s.entries - {e.a} == s.entries;
    }
  }

  /** A request that does not attempt: a refusal is told as it is; an ask fails exactly if the draw does. */
  lemma OtherOutcome(cfg: Setting, s: Store, e: Event)
    requires e.Request? && !Attempts(cfg, e, e.a)
    ensures IntentOf(cfg, e.buf).Refuse? ==>
              Reply(cfg, s, e) == Failed(IntentOf(cfg, e.buf).error) && Next(cfg, s, e) == s
    ensures IntentOf(cfg, e.buf).Ask? && e.draw.None? ==>
              Reply(cfg, s, e) == Failed(RandomUnavailable) && Next(cfg, s, e) == s
    ensures Issues(cfg, e, e.a) ==> Reply(cfg, s, e) == Challenged(ChallengeReply(cfg, e.draw.value))
  {
  }

  // ---------------------------------------------------------------- safety

  /** Event i issued the challenge now stored for `a`, and nothing has touched it since. */
  predicate LastIssue(cfg: Setting, run: seq<Event>, i: nat, a: Address) {
    && i < |run| && Issues(cfg, run[i], a)
    && forall k :: i < k < |run| ==> !Issues(cfg, run[k], a) && !Attempts(cfg, run[k], a)
  }

  lemma {:induction false} StoredOrigin(cfg: Setting, run: seq<Event>, a: Address) returns (i: nat)
    requires a in After(cfg, run).entries
    ensures LastIssue(cfg, run, i, a)
    ensures After(cfg, run).entries[a] == Entry(run[i].draw.value, run[i].now + 60_000_000_000)
  {
    var e := run[|run| - 1];
    var init := run[..|run| - 1];
    EntryStep(cfg, After(cfg, init), e, a);
    if Issues(cfg, e, a) {
      i := |run| - 1;
    } else {
      i := StoredOrigin(cfg, init, a);
      assert forall k :: 0 <= k < |init| ==> init[k] == run[k];
    }
  }

  /** Request j presents the value that event i issued to the same address, with no issue or attempt in between. */
  predicate Authorises(cfg: Setting, run: seq<Event>, i: nat, j: nat) {
    && i < j < |run| && run[j].Request?
    && Issues(cfg, run[i], run[j].a)
    && IntentOf(cfg, run[j].buf) == Redeems(run[i].draw.value)
    && forall k :: i < k < j ==> !Issues(cfg, run[k], run[j].a) && !Attempts(cfg, run[k], run[j].a)
  }

  /**
   * Safety over every run: whatever purges and other clients do, each accepted request is authorised by the most
   * recent challenge issued to its address, not redeemed or attempted since.
   */
  lemma {:induction false} EveryReplyAuthorised(cfg: Setting, run: seq<Event>, j: nat) returns (i: nat)
    requires j < |run| && run[j].Request?
    ensures Accepted(ReplyAt(cfg, run, j)) ==> Authorises(cfg, run, i, j)
  {
    i := 0;
    RedeemOutcome(cfg, After(cfg, run[..j]), run[j]);
    if Accepted(ReplyAt(cfg, run, j)) {
      i := StoredOrigin(cfg, run[..j], run[j].a);
      assert forall k :: 0 <= k < j ==> run[..j][k] == run[k];
    }
  }

  /** No challenge authorises two requests. */
  lemma {:induction false} AuthorisationInjective(cfg: Setting, run: seq<Event>, i: nat, j: nat, j': nat)
    requires Authorises(cfg, run, i, j) && Authorises(cfg, run, i, j')
    ensures j == j'
  {
    assert Attempts(cfg, run[j], run[j].a) && Attempts(cfg, run[j'], run[j].a);
  }

  // ---------------------------------------------------------------- how attempts end

  /** Event i issued the last challenge of `a`; since then nobody attempted to redeem it and no purge deleted it. */
  predicate Pending(cfg: Setting, run: seq<Event>, i: nat, a: Address) {
    i < |run| && Issues(cfg, run[i], a) && forall k :: i < k < |run| ==> Untouched(cfg, run, k, a)
  }

  predicate Untouched(cfg: Setting, run: seq<Event>, k: nat, a: Address)
    requires k < |run|
  {
    !Issues(cfg, run[k], a) && !Attempts(cfg, run[k], a) && !Deletes(After(cfg, run[..k]), run[k], a)
  }

  lemma UntouchedBefore(cfg: Setting, run: seq<Event>, k: nat, a: Address)
    requires k < |run| - 1
    ensures Untouched(cfg, run[..|run| - 1], k, a) <==> Untouched(cfg, run, k, a)
  {
    assert run[..|run| - 1][..k] == run[..k];
  }

  lemma {:induction false} StoredIsPending(cfg: Setting, run: seq<Event>, a: Address) returns (i: nat)
    requires a in After(cfg, run).entries
    ensures Pending(cfg, run, i, a) && After(cfg, run).entries[a].value == run[i].draw.value
  {
    var n := |run| - 1;
    var init, e := run[..n], run[n];
    EntryStep(cfg, After(cfg, init), e, a);
    if Issues(cfg, e, a) {
      i := n;
    } else {
      i := StoredIsPending(cfg, init, a);
      PendingSnoc(cfg, run, i, a);
    }
  }

  lemma PendingSnoc(cfg: Setting, run: seq<Event>, i: nat, a: Address)
    requires i < |run| - 1
    ensures Pending(cfg, run, i, a) <==> Pending(cfg, run[..|run| - 1], i, a) && Untouched(cfg, run, |run| - 1, a)
  {
    var n := |run| - 1;
    var init := run[..n];
    assert init[i] == run[i];
    if Pending(cfg, run, i, a) {
      forall k | i < k < n ensures Untouched(cfg, init, k, a) {
        UntouchedBefore(cfg, run, k, a);
      }
    } else if Pending(cfg, init, i, a) && Untouched(cfg, run, n, a) {
      forall k | i < k <= n ensures Untouched(cfg, run, k, a) {
        if k < n {
          UntouchedBefore(cfg, run, k, a);
        }
      }
      assert false;
    }
  }

  lemma {:induction false} PendingIsStored(cfg: Setting, run: seq<Event>, i: nat, a: Address)
    requires Pending(cfg, run, i, a)
    ensures a in After(cfg, run).entries && After(cfg, run).entries[a].value == run[i].draw.value
  {
    var n := |run| - 1;
    var init, e := run[..n], run[n];
    EntryStep(cfg, After(cfg, init), e, a);
    if i < n {
      PendingSnoc(cfg, run, i, a);
      PendingIsStored(cfg, init, i, a);
      KeptUntouched(cfg, After(cfg, init), e, a);
    }
  }

  lemma KeptUntouched(cfg: Setting, s: Store, e: Event, a: Address)
    requires a in s.entries && !Issues(cfg, e, a) && !Attempts(cfg, e, a) && !Deletes(s, e, a)
    ensures a in Next(cfg, s, e).entries && Next(cfg, s, e).entries[a] == s.entries[a]
  {
  }

  /** Event i issued the pending challenge of the address of request j, and its value is, or is not, the one presented. */
  predicate Presents(cfg: Setting, run: seq<Event>, i: nat, j: nat, same: bool) {
    && j < |run| && run[j].Request? && IntentOf(cfg, run[j].buf).Redeems?
    && Pending(cfg, run[..j], i, run[j].a)
    && same == (run[i].draw.value == IntentOf(cfg, run[j].buf).challenge)
  }

  /**
   * In every run, an attempt is accepted exactly if the last challenge issued to its address, neither attempted since
   * nor deleted by a purge, has the value presented; it is a mismatch exactly if that has another value; and finds no
   * challenge exactly if there is none.
   */
  lemma {:induction false} AttemptExactly(cfg: Setting, run: seq<Event>, j: nat)
    requires j < |run| && run[j].Request? && Attempts(cfg, run[j], run[j].a)
    ensures var o := ReplyAt(cfg, run, j);
            && (Accepted(o) <==> exists i: nat :: Presents(cfg, run, i, j, true))
            && (o == Failed(ChallengeMismatch) <==> exists i: nat :: Presents(cfg, run, i, j, false))
            && (o == Failed(NoChallengeStored) <==> forall i: nat :: !Pending(cfg, run[..j], i, run[j].a))
  {
    var past, a := run[..j], run[j].a;
    RedeemOutcome(cfg, After(cfg, past), run[j]);
    AttemptOutcome(cfg, After(cfg, past), run[j]);
    forall i: nat | Pending(cfg, past, i, a)
      ensures a in After(cfg, past).entries && After(cfg, past).entries[a].value == past[i].draw.value
    {
      PendingIsStored(cfg, past, i, a);
    }
    if a in After(cfg, past).entries {
      var i := StoredIsPending(cfg, past, a);
      assert Presents(cfg, run, i, j, run[i].draw.value == IntentOf(cfg, run[j].buf).challenge);
    }
  }

  // ---------------------------------------------------------------- conservation

  datatype Tally = Tally(issued: nat, consumed: nat, overwritten: nat, purged: nat, accepted: nat)

  /** One address, or with None all of them. */
  predicate InScope(scope: Option<Address>, a: Address) {
    scope == None || scope == Some(a)
  }

  function Scoped(m: map<Address, Entry>, scope: Option<Address>): map<Address, Entry> {
    map k | k in m && InScope(scope, k) :: m[k]
  }

  function One(b: bool): nat {
    if b then 1 else 0
  }

  function Count(cfg: Setting, s: Store, e: Event, scope: Option<Address>, t: Tally): Tally {
    match e
    case Request(a, buf, draw, now, qs) =>
      if !InScope(scope, a) then t else
      t.(issued := t.issued + One(Issues(cfg, e, a)),
         overwritten := t.overwritten + One(Issues(cfg, e, a) && a in s.entries),
         consumed := t.consumed + One(Attempts(cfg, e, a) && a in s.entries),
         accepted := t.accepted + One(Accepted(Reply(cfg, s, e))))
    case Purging(DeleteMarked(p)) =>
      var hit := p < |s.purges| && s.purges[p].marked.Some? &&
                 InScope(scope, s.purges[p].marked.value) && s.purges[p].marked.value in s.entries;
      t.(purged := t.purged + One(hit))
    case _ => t
  }

  function TallyOf(cfg: Setting, run: seq<Event>, scope: Option<Address>): Tally {
    if run == [] then Tally(0, 0, 0, 0, 0) else
      var init := run[..|run| - 1];
      Count(cfg, After(cfg, init), run[|run| - 1], scope, TallyOf(cfg, init, scope))
  }

  lemma ScopedInsert(m: map<Address, Entry>, scope: Option<Address>, a: Address, e: Entry)
    ensures |Scoped(m[a := e], scope)| == |Scoped(m, scope)| + One(InScope(scope, a) && a !in m)
  {
    var before, after := Scoped(m, scope), Scoped(m[a := e], scope);
    assert |after| == |after.Keys| && |before| == |before.Keys|;
    if InScope(scope, a) && a !in m {
      assert after.Keys == before.Keys + {a};
    } else {
      assert after.Keys == before.Keys;
    }
  }

  lemma ScopedRemove(m: map<Address, Entry>, scope: Option<Address>, a: Address)
    ensures |Scoped(m, scope)| == |Scoped(m - {a}, scope)| + One(InScope(scope, a) && a in m)
  {
    if a in m {
      assert (m - {a})[a := m[a]] == m;
      ScopedInsert(m - {a}, scope, a, m[a]);
    } else {
      assert m - {a} == m;
    }
  }

  /**
   * Conservation in every reachable state, per address and overall: every challenge issued is still stored, or was
   * consumed by an attempt, overwritten by a newer one, or deleted by a purge; and each acceptance consumed one.
   */
  lemma {:induction false} ChallengesConserved(cfg: Setting, run: seq<Event>, scope: Option<Address>)
    ensures var t := TallyOf(cfg, run, scope);
            && t.issued == |Scoped(After(cfg, run).entries, scope)| + t.consumed + t.overwritten + t.purged
            && t.accepted <= t.consumed
  {
    if run == [] {
      assert Scoped(map[], scope) == map[];
    } else {
      var init, e := run[..|run| - 1], run[|run| - 1];
      ChallengesConserved(cfg, init, scope);
      ConservedStep(cfg, After(cfg, init), e, scope, TallyOf(cfg, init, scope));
    }
  }

  /** One event moves challenges between the columns of the tally, and accepts only what it consumes. */
  predicate Balanced(cfg: Setting, s: Store, e: Event, scope: Option<Address>, t: Tally) {
    var t' := Count(cfg, s, e, scope, t);
    && t'.issued - t.issued + |Scoped(s.entries, scope)|
    == |Scoped(Next(cfg, s, e).entries, scope)| + (t'.consumed - t.consumed)
       + (t'.overwritten - t.overwritten) + (t'.purged - t.purged)
    && t'.accepted - t.accepted <= t'.consumed - t.consumed
  }

  lemma ConservedStep(cfg: Setting, s: Store, e: Event, scope: Option<Address>, t: Tally)
    ensures Balanced(cfg, s, e, scope, t)
  {
    match e {
      case Request(a, buf, draw, now, qs) => RequestBalanced(cfg, s, e, scope, t);
      case Purging(DeleteMarked(p)) => DeleteBalanced(cfg, s, p, scope, t);
      case _ =>
    }
  }

  lemma DeleteBalanced(cfg: Setting, s: Store, p: nat, scope: Option<Address>, t: Tally)
    ensures Balanced(cfg, s, Purging(DeleteMarked(p)), scope, t)
  {
    if p < |s.purges| && s.purges[p].marked.Some? {
      ScopedRemove(s.entries, scope, s.purges[p].marked.value);
    }
  }

  lemma RequestBalanced(cfg: Setting, s: Store, e: Event, scope: Option<Address>, t: Tally)
    requires e.Request?
    ensures Balanced(cfg, s, e, scope, t)
  {
    match IntentOf(cfg, e.buf) {
      case Ask => AskBalanced(cfg, s, e, scope, t);
      case Redeems(c) => AttemptBalanced(cfg, s, e, scope, t);
      case Refuse(err) =>
        assert Next(cfg, s, e) == s;
        RefusalNotAccepted(cfg, s, e);
    }
  }

  lemma AskBalanced(cfg: Setting, s: Store, e: Event, scope: Option<Address>, t: Tally)
    requires e.Request? && IntentOf(cfg, e.buf).Ask?
    ensures Balanced(cfg, s, e, scope, t)
  {
    assert !Accepted(Reply(cfg, s, e));
    if e.draw.Some? {
      var entry := Entry(e.draw.value, e.now + MINUTE);
      ScopedInsert(s.entries, scope, e.a, entry);
      assert Next(cfg, s, e).entries == s.entries[e.a := entry];
    } else {
      assert Next(cfg, s, e) == s;
    }
  }

  lemma AttemptBalanced(cfg: Setting, s: Store, e: Event, scope: Option<Address>, t: Tally)
    requires e.Request? && IntentOf(cfg, e.buf).Redeems?
    ensures Balanced(cfg, s, e, scope, t)
  {
    RedeemOutcome(cfg, s, e);
    ScopedRemove(s.entries, scope, e.a);
    if e.a in s.entries {
      assert Next(cfg, s, e).entries == s.entries - {e.a};
    } else {
      assert s.entries - {e.a} == s.entries;
      assert Next(cfg, s, e).entries == s.entries;
    }
  }

  lemma RefusalNotAccepted(cfg: Setting, s: Store, e: Event)
    requires e.Request? && IntentOf(cfg, e.buf).Refuse?
    ensures !Accepted(Reply(cfg, s, e))
  {
  }

  /** Per address, acceptances and the pending entry together never exceed the challenges issued. */
  lemma {:induction false} NeverMoreThanIssued(cfg: Setting, run: seq<Event>, a: Address)
    ensures var t := TallyOf(cfg, run, Some(a));
            t.accepted + One(a in After(cfg, run).entries) <= t.issued
  {
    ChallengesConserved(cfg, run, Some(a));
    var m := After(cfg, run).entries;
    if a in m {
      assert Scoped(m, Some(a)) == map[a := m[a]];
    }
  }

  // ---------------------------------------------------------------- non-interference

  /** The run without the requests of other addresses: purge launches and steps stay where they are. */
  function Without(run: seq<Event>, a: Address): seq<Event> {
    if run == [] then [] else
      var init, e := run[..|run| - 1], run[|run| - 1];
      if e.Request? && e.a != a then Without(init, a) else Without(init, a) + [e]
  }

  /** The replies and errors `a` sees, in order. */
  function Replies(cfg: Setting, run: seq<Event>, a: Address): seq<Outcome> {
    if run == [] then [] else
      var init, e := run[..|run| - 1], run[|run| - 1];
      if e.Request? && e.a == a then Replies(cfg, init, a) + [Reply(cfg, After(cfg, init), e)] else Replies(cfg, init, a)
  }

  /** Two stores that no request from `a`, and no purge step, can tell apart as far as `a` is concerned. */
  predicate Agree(s: Store, t: Store, a: Address) {
    && (a in s.entries <==> a in t.entries)
    && (a in s.entries ==> s.entries[a] == t.entries[a])
    && s.lastPurged == t.lastPurged
    && |s.purges| == |t.purges|
    && forall p :: 0 <= p < |s.purges| ==>
         s.purges[p].epoch == t.purges[p].epoch && (s.purges[p].marked == Some(a) <==> t.purges[p].marked == Some(a))
  }

  lemma AgreeStep(cfg: Setting, s: Store, t: Store, e: Event, a: Address)
    requires Agree(s, t, a)
    ensures e.Request? && e.a != a ==> Agree(Next(cfg, s, e), t, a)
    ensures !(e.Request? && e.a != a) ==> Agree(Next(cfg, s, e), Next(cfg, t, e), a)
    ensures e.Request? && e.a == a ==> Reply(cfg, s, e) == Reply(cfg, t, e)
  {
  }

  /**
   * Non-interference: with random draws, clock readings and purge steps fixed, deleting every request from other
   * addresses changes nothing in what an address is told.
   */
  lemma {:induction false} ClientsDoNotInterfere(cfg: Setting, run: seq<Event>, a: Address)
    ensures Replies(cfg, run, a) == Replies(cfg, Without(run, a), a)
    ensures Agree(After(cfg, run), After(cfg, Without(run, a)), a)
  {
    if run != [] {
      var init, e := run[..|run| - 1], run[|run| - 1];
      ClientsDoNotInterfere(cfg, init, a);
      AgreeStep(cfg, After(cfg, init), After(cfg, Without(init, a)), e, a);
      var kept := Without(init, a);
      if !(e.Request? && e.a != a) {
        assert (kept + [e])[..|kept|] == kept;
      }
    }
  }

  // ---------------------------------------------------------------- requests and purges are runs

  /** A run resumed from a given store. */
  function Resume(cfg: Setting, s: Store, events: seq<Event>): Store {
    if events == [] then s else Next(cfg, Resume(cfg, s, events[..|events| - 1]), events[|events| - 1])
  }

  lemma {:induction false} ResumeConcat(cfg: Setting, s: Store, xs: seq<Event>, ys: seq<Event>)
    ensures Resume(cfg, s, xs + ys) == Resume(cfg, Resume(cfg, s, xs), ys)
    decreases |ys|
  {
    if ys == [] {
      assert xs + ys == xs;
    } else {
      var n := |ys| - 1;
      ResumeConcat(cfg, s, xs, ys[..n]);
      ConcatInit(xs, ys);
      ResumeLast(cfg, s, xs + ys, xs + ys[..n]);
    }
  }

  lemma ConcatInit(xs: seq<Event>, ys: seq<Event>)
    requires ys != []
    ensures (xs + ys)[..|xs + ys| - 1] == xs + ys[..|ys| - 1]
  {
  }

  lemma ResumeLast(cfg: Setting, s: Store, events: seq<Event>, init: seq<Event>)
    requires events != [] && init == events[..|events| - 1]
    ensures Resume(cfg, s, events) == Next(cfg, Resume(cfg, s, init), events[|events| - 1])
  {
  }

  lemma {:induction false} AfterResumes(cfg: Setting, run: seq<Event>)
    ensures After(cfg, run) == Resume(cfg, FRESH, run)
  {
    if run != [] {
      AfterResumes(cfg, run[..|run| - 1]);
    }
  }

  lemma ResumeOne(cfg: Setting, s: Store, e: Event)
    ensures Resume(cfg, s, [e]) == Next(cfg, s, e)
  {
    assert [e][..0] == [];
  }

  datatype Addressed = Addressed(to: Address, outcome: Outcome)

  /** The machine's replies to the requests of a run resumed from `s`, in order. */
  function MachineReplies(cfg: Setting, s: Store, events: seq<Event>): seq<Addressed> {
    if events == [] then [] else
      var n := |events| - 1;
      MachineReplies(cfg, s, events[..n]) + ReplyTo(cfg, Resume(cfg, s, events[..n]), events[n])
  }

  function ReplyTo(cfg: Setting, s: Store, e: Event): seq<Addressed> {
    if e.Request? then [Addressed(e.a, Reply(cfg, s, e))] else []
  }

  /** Reply r of a run answers the request that comes after r others. */
  lemma {:induction false} ReplyOrigin(cfg: Setting, s: Store, run: seq<Event>, r: nat) returns (j: nat)
    requires r < |MachineReplies(cfg, s, run)|
    ensures j < |run| && |MachineReplies(cfg, s, run[..j])| == r
    ensures ReplyTo(cfg, Resume(cfg, s, run[..j]), run[j]) == [MachineReplies(cfg, s, run)[r]]
  {
    var n := |run| - 1;
    if r < |MachineReplies(cfg, s, run[..n])| {
      j := ReplyOrigin(cfg, s, run[..n], r);
      assert run[..n][..j] == run[..j];
    } else {
      j := n;
    }
  }

  lemma {:induction false} RepliesConcat(cfg: Setting, s: Store, xs: seq<Event>, ys: seq<Event>)
    ensures MachineReplies(cfg, s, xs + ys) == MachineReplies(cfg, s, xs) + MachineReplies(cfg, Resume(cfg, s, xs), ys)
    decreases |ys|
  {
    if ys == [] {
      assert xs + ys == xs;
    } else {
      var n := |ys| - 1;
      RepliesConcat(cfg, s, xs, ys[..n]);
      ResumeConcat(cfg, s, xs, ys[..n]);
      ConcatInit(xs, ys);
      RepliesLast(cfg, s, xs + ys, xs + ys[..n]);
      var t := Resume(cfg, s, xs);
      Associative(MachineReplies(cfg, s, xs), MachineReplies(cfg, t, ys[..n]),
                  ReplyTo(cfg, Resume(cfg, t, ys[..n]), ys[n]));
    }
  }

  lemma RepliesLast(cfg: Setting, s: Store, events: seq<Event>, init: seq<Event>)
    requires events != [] && init == events[..|events| - 1]
    ensures MachineReplies(cfg, s, events)
         == MachineReplies(cfg, s, init) + ReplyTo(cfg, Resume(cfg, s, init), events[|events| - 1])
  {
  }

  lemma Associative(a: seq<Addressed>, b: seq<Addressed>, c: seq<Addressed>)
    ensures a + (b + c) == a + b + c
  {
  }

  /** Purge steps as events. */
  function PurgeEvents(steps: seq<PurgeStep>): (events: seq<Event>)
    ensures |events| == |steps|
    ensures forall k :: 0 <= k < |steps| ==> events[k] == Purging(steps[k])
  {
    seq(|steps|, k requires 0 <= k < |steps| => Purging(steps[k]))
  }

  lemma {:induction false} PurgesAreRun(cfg: Setting, s: Store, steps: seq<PurgeStep>)
    ensures Resume(cfg, s, PurgeEvents(steps)) == Moves(s, steps)
    ensures MachineReplies(cfg, s, PurgeEvents(steps)) == []
    decreases |steps|
  {
    if steps != [] {
      var e := Purging(steps[0]);
      assert PurgeEvents(steps) == [e] + PurgeEvents(steps[1..]);
      ResumeOne(cfg, s, e);
      ResumeConcat(cfg, s, [e], PurgeEvents(steps[1..]));
      RepliesConcat(cfg, s, [e], PurgeEvents(steps[1..]));
      assert MachineReplies(cfg, s, [e]) == [] by {
        assert [e][..0] == [];
      }
      PurgesAreRun(cfg, Move(s, steps[0]), steps[1..]);
    }
  }

  /** What happens in a request before its access to the store. */
  function BeforeAccess(cfg: Setting, buf: Packet, r: Readings): seq<Event> {
    if IntentOf(cfg, buf).Ask? then [Begin(r.check, r.stamp, r.epoch)] + PurgeEvents(r.beside) else []
  }

  /** The events of one whole request. */
  function RequestEvents(cfg: Setting, a: Address, buf: Packet, r: Readings, qs: Option<QueryState>): seq<Event> {
    BeforeAccess(cfg, buf, r) + [Request(a, buf, r.draw, r.now, qs)]
  }

  lemma BeforeAccessReaches(cfg: Setting, s: Store, buf: Packet, r: Readings)
    ensures Resume(cfg, s, BeforeAccess(cfg, buf, r)) == (
              if IntentOf(cfg, buf).Ask? then Moves(LaunchPurge(s, r.check, r.stamp, r.epoch), r.beside) else s)
    ensures MachineReplies(cfg, s, BeforeAccess(cfg, buf, r)) == []
  {
    if IntentOf(cfg, buf).Ask? {
      var begin := Begin(r.check, r.stamp, r.epoch);
      ResumeOne(cfg, s, begin);
      ResumeConcat(cfg, s, [begin], PurgeEvents(r.beside));
      RepliesConcat(cfg, s, [begin], PurgeEvents(r.beside));
      assert MachineReplies(cfg, s, [begin]) == [] by {
        assert [begin][..0] == [];
      }
      PurgesAreRun(cfg, LaunchPurge(s, r.check, r.stamp, r.epoch), r.beside);
    }
  }

  /** What the responder does to the store in one call is a run of the machine, and its reply the machine's. */
  lemma RequestIsRun(cfg: Setting, s: Store, a: Address, buf: Packet, r: Readings, qs: Option<QueryState>)
    ensures var events := RequestEvents(cfg, a, buf, r, qs);
            && Responded(cfg, s, a, buf, r, qs).0 == Resume(cfg, s, events)
            && MachineReplies(cfg, s, events) == [Addressed(a, Responded(cfg, s, a, buf, r, qs).1)]
  {
    var before, request := BeforeAccess(cfg, buf, r), Request(a, buf, r.draw, r.now, qs);
    BeforeAccessReaches(cfg, s, buf, r);
    assert (before + [request])[..|before|] == before;
  }

  function SweepSteps(p: nat, keys: seq<Address>): seq<PurgeStep> {
    if keys == [] then [] else [VisitKey(p, keys[0]), DeleteMarked(p)] + SweepSteps(p, keys[1..])
  }

  /** A whole purge is its steps, one after another. */
  lemma {:induction false} SweepIsMoves(s: Store, p: nat, keys: seq<Address>)
    ensures Sweep(s, p, keys) == Moves(s, SweepSteps(p, keys))
    decreases |keys|
  {
    if keys != [] {
      var steps, rest := SweepSteps(p, keys), SweepSteps(p, keys[1..]);
      assert steps[1..] == [DeleteMarked(p)] + rest && steps[1..][1..] == rest;
      SweepIsMoves(Delete(Visit(s, p, keys[0]), p), p, keys[1..]);
    }
  }
}
