/** What purges do to a run of the handshake: which entries they take, the race they allow, and how old entries get. */
module PurgeRuns {
  import opened Bytes
  import opened Game
  import opened Challenges
  import opened Responder
  import opened Handshake

  predicate StepOf(e: Event, p: nat) {
    e.Purging? && e.step.p == p
  }

  /** Event v is the visit that marked k for purge p; p has not moved since. */
  predicate MarkedAt(cfg: Setting, run: seq<Event>, v: nat, p: nat, k: Address) {
    && v < |run| && run[v] == Purging(VisitKey(p, k))
    && (forall m :: v < m < |run| ==> !StepOf(run[m], p))
    && var s := After(cfg, run[..v]);
       p < |s.purges| && k in s.entries && Stale(s.purges[p].epoch, s.entries[k])
  }

  /** Only its own steps change a purge; only a visit to a stale entry marks it. */
  lemma MarkStep(cfg: Setting, s: Store, e: Event, p: nat)
    requires p < |Next(cfg, s, e).purges|
    ensures var t := Next(cfg, s, e);
            && (p < |s.purges| ==> t.purges[p].epoch == s.purges[p].epoch)
            && (p < |s.purges| && !StepOf(e, p) ==> t.purges[p] == s.purges[p])
            && (p >= |s.purges| ==> e.Begin? && t.purges[p].marked == None)
            && (t.purges[p].marked.Some? && StepOf(e, p) ==>
                  && e == Purging(VisitKey(p, t.purges[p].marked.value))
                  && e.step.k in s.entries && Stale(s.purges[p].epoch, s.entries[e.step.k]))
  {
  }

  lemma {:induction false} MarkOrigin(cfg: Setting, run: seq<Event>, p: nat, k: Address) returns (v: nat)
    requires p < |After(cfg, run).purges| && After(cfg, run).purges[p].marked == Some(k)
    ensures MarkedAt(cfg, run, v, p, k)
    ensures After(cfg, run[..v]).purges[p].epoch == After(cfg, run).purges[p].epoch
  {
    var n := |run| - 1;
    var init, e := run[..n], run[n];
    MarkStep(cfg, After(cfg, init), e, p);
    if StepOf(e, p) {
      v := n;
    } else {
      v := MarkOrigin(cfg, init, p, k);
      assert init[..v] == run[..v];
      assert forall m :: 0 <= m < n ==> init[m] == run[m];
    }
  }

  /** A mark stays until its purge moves again. */
  lemma {:induction false} MarkStays(cfg: Setting, run: seq<Event>, v: nat, p: nat, k: Address)
    requires MarkedAt(cfg, run, v, p, k)
    ensures p < |After(cfg, run).purges| && After(cfg, run).purges[p].marked == Some(k)
  {
    var n := |run| - 1;
    var init := run[..n];
    if v < n {
      assert init[..v] == run[..v];
      assert forall m :: 0 <= m < n ==> init[m] == run[m];
      MarkStays(cfg, init, v, p, k);
      MarkStep(cfg, After(cfg, init), run[n], p);
    }
  }

  /** Without a new challenge for k, its entry does not change: it stays or goes. */
  lemma {:induction false} EntryStays(cfg: Setting, run: seq<Event>, v: nat, k: Address)
    requires v <= |run|
    requires forall i :: v <= i < |run| ==> !Issues(cfg, run[i], k)
    ensures k in After(cfg, run).entries ==>
              k in After(cfg, run[..v]).entries && After(cfg, run).entries[k] == After(cfg, run[..v]).entries[k]
  {
    if v == |run| {
      assert run[..v] == run;
    } else {
      var n := |run| - 1;
      assert run[..n][..v] == run[..v];
      EntryStays(cfg, run[..n], v, k);
      EntryStep(cfg, After(cfg, run[..n]), run[n], k);
    }
  }

  // ---------------------------------------------------------------- which entries a purge takes

  /**
   * In any interleaving, a purge removes an entry that its epoch does not make stale only if a challenge was issued
   * for that key between the purge's visit and its delete.
   */
  lemma UnexpiredRemovedOnlyByRace(cfg: Setting, run: seq<Event>, j: nat, k: Address) returns (v: nat, i: nat)
    requires j < |run| && Deletes(After(cfg, run[..j]), run[j], k)
    requires var s := After(cfg, run[..j]); k in s.entries && !Stale(s.purges[run[j].step.p].epoch, s.entries[k])
    ensures v < i < j && MarkedAt(cfg, run[..j], v, run[j].step.p, k) && Issues(cfg, run[i], k)
  {
    v := MarkOrigin(cfg, run[..j], run[j].step.p, k);
    assert forall m :: 0 <= m < j ==> run[..j][m] == run[m];
    if forall m :: v <= m < j ==> !Issues(cfg, run[m], k) {
      assert run[..j][..v] == run[..v];
      EntryStays(cfg, run[..j], v, k);
      assert false;
    }
    i :| v <= i < j && Issues(cfg, run[i], k);
  }

  /**
   * In any run, a visit that finds a challenge issued at or after the purge's epoch leaves the purge unmarked: it is
   * never judged stale, however much later the visit comes.
   */
  lemma {:induction false} FreshNeverMarked(cfg: Setting, run: seq<Event>, v: nat, p: nat, k: Address) returns (i: nat)
    requires v < |run| && run[v] == Purging(VisitKey(p, k))
    requires p < |After(cfg, run[..v]).purges| && k in After(cfg, run[..v]).entries
    ensures LastIssue(cfg, run[..v], i, k)
    ensures After(cfg, run[..v]).purges[p].epoch <= run[i].now ==>
              p < |After(cfg, run[..v + 1]).purges| && After(cfg, run[..v + 1]).purges[p].marked == None
  {
    i := StoredOrigin(cfg, run[..v], k);
    assert run[..v + 1] == run[..v] + [run[v]];
    AfterSnoc(cfg, run[..v], run[v]);
  }

  /** Event b launches purge p. */
  predicate Launches(cfg: Setting, run: seq<Event>, b: nat, p: nat) {
    && b < |run| && run[b].Begin? && run[b].check > After(cfg, run[..b]).lastPurged
    && |After(cfg, run[..b]).purges| == p
  }

  lemma {:induction false} EpochOf(cfg: Setting, run: seq<Event>, b: nat, p: nat)
    requires Launches(cfg, run, b, p)
    ensures p < |After(cfg, run).purges| && After(cfg, run).purges[p].epoch == run[b].epoch
  {
    var n := |run| - 1;
    if b < n {
      assert run[..n][..b] == run[..b];
      EpochOf(cfg, run[..n], b, p);
      EpochStays(cfg, After(cfg, run[..n]), run[n], p);
    }
  }

  lemma EpochStays(cfg: Setting, s: Store, e: Event, p: nat)
    requires p < |s.purges|
    ensures p < |Next(cfg, s, e).purges| && Next(cfg, s, e).purges[p].epoch == s.purges[p].epoch
  {
  }

  predicate Reads(cfg: Setting, e: Event) {
    e.Begin? || (e.Request? && Issues(cfg, e, e.a))
  }

  function FirstReading(e: Event): nat
    requires e.Begin? || e.Request?
  {
    if e.Begin? then e.check else e.now
  }

  function LastReading(e: Event): nat
    requires e.Begin? || e.Request?
  {
    if e.Begin? then e.epoch else e.now
  }

  /** The clock never runs backwards: not within an event, and not from one event to a later one. */
  predicate Monotone(cfg: Setting, run: seq<Event>) {
    && (forall i :: 0 <= i < |run| && run[i].Begin? ==> run[i].check <= run[i].stamp <= run[i].epoch)
    && (forall i, j :: 0 <= i < j < |run| && Reads(cfg, run[i]) && Reads(cfg, run[j]) ==>
          LastReading(run[i]) <= FirstReading(run[j]))
  }

  /** With a monotone clock, a purge never judges stale a challenge issued after it was launched. */
  lemma LaterIssueNeverMarked(cfg: Setting, run: seq<Event>, b: nat, v: nat, p: nat, k: Address)
    requires Monotone(cfg, run) && Launches(cfg, run, b, p) && b < v < |run| && run[v] == Purging(VisitKey(p, k))
    requires k in After(cfg, run[..v]).entries
    requires exists i :: b < i < v && Issues(cfg, run[i], k)
    ensures p < |After(cfg, run[..v + 1]).purges| && After(cfg, run[..v + 1]).purges[p].marked == None
  {
    assert run[..v][..b] == run[..b];
    EpochOf(cfg, run[..v], b, p);
    var i := FreshNeverMarked(cfg, run, v, p, k);
    assert forall m :: 0 <= m < v ==> run[..v][m] == run[m];
    var late :| b < late < v && Issues(cfg, run[late], k);
    assert i >= late;
    assert Reads(cfg, run[b]) && Reads(cfg, run[i]);
  }

  // ---------------------------------------------------------------- the race

  /**
   * The race is real: for any address, challenge and clock reading, a run in which a challenge is issued between the
   * visit and the delete of a purge, and the correct echo, an instant later, finds nothing stored.
   */
  lemma FreshChallengeLost(cfg: Setting, a: Address, first: u32, second: u32, t: nat, ask: Packet, qs: Option<QueryState>)
    requires IntentOf(cfg, ask).Ask?
    ensures var run := [Request(a, ask, Some(first), t, qs),
                        Begin(t + MINUTE + 1, t + MINUTE + 1, t + MINUTE + 1),
                        Purging(VisitKey(0, a)),
                        Request(a, ask, Some(second), t + MINUTE + 1, qs),
                        Purging(DeleteMarked(0))];
            && ReplyAt(cfg, run, 3) == Challenged(ChallengeReply(cfg, second))
            && a !in After(cfg, run).entries
  {
    var marking := [Request(a, ask, Some(first), t, qs),
                    Begin(t + MINUTE + 1, t + MINUTE + 1, t + MINUTE + 1),
                    Purging(VisitKey(0, a))];
    var e3, e4 := Request(a, ask, Some(second), t + MINUTE + 1, qs), Purging(DeleteMarked(0));
    var run := [marking[0], marking[1], marking[2], e3, e4];
    OldEntryMarked(cfg, a, first, t, ask, qs);
    assert run[..3] == marking && run[..4] == marking + [e3] && run == marking + [e3] + [e4];
    AfterSnoc(cfg, marking, e3);
    AfterSnoc(cfg, marking + [e3], e4);
    assert After(cfg, marking + [e3]).purges == [Purge(t + MINUTE + 1, Some(a))];
  }

  /** A minute and an instant after a challenge was issued, a purge visits its key and marks it. */
  lemma OldEntryMarked(cfg: Setting, a: Address, value: u32, t: nat, ask: Packet, qs: Option<QueryState>)
    requires IntentOf(cfg, ask).Ask?
    ensures After(cfg, [Request(a, ask, Some(value), t, qs),
                        Begin(t + MINUTE + 1, t + MINUTE + 1, t + MINUTE + 1),
                        Purging(VisitKey(0, a))])
         == Store(map[a := Entry(value, t + MINUTE)], t + MINUTE + 1, [Purge(t + MINUTE + 1, Some(a))])
  {
    var e0, e1 := Request(a, ask, Some(value), t, qs), Begin(t + MINUTE + 1, t + MINUTE + 1, t + MINUTE + 1);
    var e2 := Purging(VisitKey(0, a));
    assert [e0] == [] + [e0] && [e0, e1] == [e0] + [e1] && [e0, e1, e2] == [e0, e1] + [e2];
    AfterSnoc(cfg, [], e0);
    AfterSnoc(cfg, [e0], e1);
    AfterSnoc(cfg, [e0, e1], e2);
    assert [Purge(t + MINUTE + 1, None)][0 := Purge(t + MINUTE + 1, Some(a))] == [Purge(t + MINUTE + 1, Some(a))];
  }

  // ---------------------------------------------------------------- how old entries get

  /** Purge p finishes with one key, deleting what it marked, before it visits the next. */
  predicate OneKeyAtATime(cfg: Setting, run: seq<Event>, p: nat) {
    forall v :: 0 <= v < |run| && run[v].Purging? && run[v].step.VisitKey? && run[v].step.p == p ==>
                  var s := After(cfg, run[..v]); p < |s.purges| ==> s.purges[p].marked == None
  }

  predicate Visited(run: seq<Event>, b: nat, p: nat, k: Address) {
    exists v :: b < v < |run| && run[v] == Purging(VisitKey(p, k))
  }

  /** Since its launch at b, purge p has visited every key stored then, and has deleted the last one it marked. */
  predicate Completed(cfg: Setting, run: seq<Event>, b: nat, p: nat)
    requires b < |run|
  {
    && (forall k :: k in After(cfg, run[..b]).entries ==> Visited(run, b, p, k))
    && p < |After(cfg, run).purges| && After(cfg, run).purges[p].marked == None
  }

  /** While a purge is under way, an entry stale for it is marked, or was stored before the launch and is unvisited. */
  lemma {:induction false} StaleUnvisited(cfg: Setting, run: seq<Event>, b: nat, p: nat, k: Address)
    requires Monotone(cfg, run) && Launches(cfg, run, b, p) && OneKeyAtATime(cfg, run, p)
    requires k in After(cfg, run).entries && Stale(run[b].epoch, After(cfg, run).entries[k])
    ensures p < |After(cfg, run).purges|
    ensures After(cfg, run).purges[p].marked == Some(k) || !Visited(run, b, p, k)
  {
    EpochOf(cfg, run, b, p);
    var n := |run| - 1;
    if b < n {
      var init, e := run[..n], run[n];
      UnderWayBefore(cfg, run, b, p);
      StaleStep(cfg, After(cfg, init), e, After(cfg, run), run[b].epoch, p, k);
      StaleUnvisited(cfg, init, b, p, k);
      VisitedSnoc(run, b, p, k);
    }
  }

  lemma UnderWayBefore(cfg: Setting, run: seq<Event>, b: nat, p: nat)
    requires Monotone(cfg, run) && Launches(cfg, run, b, p) && OneKeyAtATime(cfg, run, p) && b < |run| - 1
    ensures var init := run[..|run| - 1];
            && Monotone(cfg, init) && Launches(cfg, init, b, p) && OneKeyAtATime(cfg, init, p) && init[b] == run[b]
            && Disciplined(cfg, After(cfg, init), run[|run| - 1], run[b].epoch, p)
  {
    var init := run[..|run| - 1];
    MonotonePrefix(cfg, run);
    assert forall v :: 0 <= v <= |init| ==> init[..v] == run[..v];
    EpochOf(cfg, init, b, p);
    IssueIsFresh(cfg, run, b, |run| - 1);
  }

  /** Beside a purge with this epoch the event issues nothing stale, and the purge visits nothing while it has a mark. */
  predicate Disciplined(cfg: Setting, s: Store, e: Event, epoch: nat, p: nat) {
    && p < |s.purges| && s.purges[p].epoch == epoch
    && (e.Request? && Issues(cfg, e, e.a) ==> epoch <= e.now + MINUTE)
    && (e.Purging? && e.step.VisitKey? && e.step.p == p ==> s.purges[p].marked == None)
  }

  lemma VisitedSnoc(run: seq<Event>, b: nat, p: nat, k: Address)
    requires b < |run| - 1
    ensures Visited(run, b, p, k) <==> Visited(run[..|run| - 1], b, p, k) || run[|run| - 1] == Purging(VisitKey(p, k))
  {
    var init := run[..|run| - 1];
    assert forall v :: 0 <= v < |init| ==> init[v] == run[v];
  }

  lemma IssueIsFresh(cfg: Setting, run: seq<Event>, b: nat, j: nat)
    requires Monotone(cfg, run) && b < j < |run| && run[b].Begin?
    ensures run[j].Request? && Issues(cfg, run[j], run[j].a) ==> run[b].epoch <= run[j].now + MINUTE
  {
    assert Reads(cfg, run[b]);
  }

  /** An entry stale after a step was stale before it, and its mark, if it has one, is still there. */
  lemma StaleStep(cfg: Setting, s: Store, e: Event, t: Store, epoch: nat, p: nat, k: Address)
    requires t == Next(cfg, s, e) && Disciplined(cfg, s, e, epoch, p)
    requires k in t.entries && Stale(epoch, t.entries[k])
    ensures !Issues(cfg, e, k) && k in s.entries && s.entries[k] == t.entries[k]
    ensures p < |t.purges|
    ensures s.purges[p].marked == Some(k) ==> t.purges[p].marked == Some(k)
    ensures e == Purging(VisitKey(p, k)) ==> t.purges[p].marked == Some(k)
  {
    EntryStep(cfg, s, e, k);
  }

  /** A completed purge has left nothing stale for its epoch, whatever was stored, redeemed or purged beside it. */
  lemma CompletedLeavesFresh(cfg: Setting, run: seq<Event>, b: nat, p: nat, k: Address)
    requires Monotone(cfg, run) && Launches(cfg, run, b, p) && OneKeyAtATime(cfg, run, p) && Completed(cfg, run, b, p)
    requires k in After(cfg, run).entries
    ensures run[b].epoch <= After(cfg, run).entries[k].expiry
  {
    if Stale(run[b].epoch, After(cfg, run).entries[k]) {
      var i := StoredOrigin(cfg, run, k);
      if i > b {
        IssueIsFresh(cfg, run, b, i);
      }
      EntryStays(cfg, run, b, k);
      StaleUnvisited(cfg, run, b, p, k);
      assert false;
    }
  }

  /**
   * Expiry: once a purge has completed, no request is accepted on a challenge that had expired at its epoch, that is
   * one issued more than a minute before.
   */
  lemma AcceptedUnexpired(cfg: Setting, run: seq<Event>, b: nat, p: nat, j: nat) returns (i: nat)
    requires j < |run| && run[j].Request? && Accepted(ReplyAt(cfg, run, j))
    requires var past := run[..j];
             && Monotone(cfg, past) && Launches(cfg, past, b, p) && OneKeyAtATime(cfg, past, p)
             && Completed(cfg, past, b, p)
    ensures Authorises(cfg, run, i, j) && run[b].Begin? && run[b].epoch <= run[i].now + 60_000_000_000
  {
    RedeemOutcome(cfg, After(cfg, run[..j]), run[j]);
    i := StoredOrigin(cfg, run[..j], run[j].a);
    CompletedLeavesFresh(cfg, run[..j], b, p, run[j].a);
    assert forall k :: 0 <= k < j ==> run[..j][k] == run[k];
  }

  /** The launch that set the time of the last purge, if there was one. */
  lemma {:induction false} LastLaunch(cfg: Setting, run: seq<Event>) returns (b: nat, p: nat)
    requires After(cfg, run).lastPurged > 0
    ensures Launches(cfg, run, b, p) && run[b].stamp == After(cfg, run).lastPurged
    ensures forall c: nat, q: nat :: b < c < |run| ==> !Launches(cfg, run, c, q)
  {
    var n := |run| - 1;
    var init := run[..n];
    p := |After(cfg, init).purges|;
    if Launches(cfg, run, n, p) {
      b := n;
    } else {
      b, p := LastLaunch(cfg, init);
      assert init[..b] == run[..b];
      forall c: nat, q: nat | b < c < |run| ensures !Launches(cfg, run, c, q) {
        if c < n {
          assert init[..c] == run[..c];
          assert !Launches(cfg, init, c, q);
        }
      }
    }
  }

  lemma {:induction false} ChecksBelowLastPurged(cfg: Setting, run: seq<Event>, c: nat)
    requires Monotone(cfg, run) && c < |run| && run[c].Begin?
    ensures run[c].check <= After(cfg, run).lastPurged
  {
    var n := |run| - 1;
    if c < n {
      MonotonePrefix(cfg, run);
      ChecksBelowLastPurged(cfg, run[..n], c);
    }
  }

  lemma MonotonePrefix(cfg: Setting, run: seq<Event>)
    requires Monotone(cfg, run) && run != []
    ensures Monotone(cfg, run[..|run| - 1])
  {
  }

  /** The purge launched last, if any, visits one key at a time and has completed. */
  ghost predicate LastPurgeCompleted(cfg: Setting, run: seq<Event>) {
    forall b: nat, p: nat ::
      Launches(cfg, run, b, p) && (forall c: nat, q: nat :: b < c < |run| ==> !Launches(cfg, run, c, q)) ==>
        OneKeyAtATime(cfg, run, p) && Completed(cfg, run, b, p)
  }

  /**
   * Boundedness: with a monotone clock, whenever the purge launched last has completed, and however its steps and
   * those of older purges fell among the requests, each stored challenge was issued within the minute before any
   * request for a challenge began, or since; so within the minute before the latest one.
   */
  lemma StoreHoldsOneMinute(cfg: Setting, run: seq<Event>, c: nat, k: Address) returns (i: nat)
    requires Monotone(cfg, run) && LastPurgeCompleted(cfg, run)
    requires c < |run| && run[c].Begin?
    requires k in After(cfg, run).entries
    ensures LastIssue(cfg, run, i, k) && run[c].check <= run[i].now + 60_000_000_000
  {
    i := StoredOrigin(cfg, run, k);
    ChecksBelowLastPurged(cfg, run, c);
    if After(cfg, run).lastPurged > 0 {
      var b, p := LastLaunch(cfg, run);
      CompletedLeavesFresh(cfg, run, b, p, k);
    }
  }
}
