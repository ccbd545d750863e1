/**
 * What concurrent callers are told: each claim that commits returns what its atomic counterpart in the
 * serial run returns, and each submit and ingest gets the reply it gets there.
 */
module ConcurrentReplies {
  import opened Basics
  import opened Ordering
  import opened StoreModel
  import opened StoreSteps
  import opened Representative
  import opened ConcurrentClaims

  /** The reply to a submit or an ingest. */
  datatype Reply = Submitted(err: Option<SubmitError>) | Ingested(outcome: IngestOutcome) | NoReply

  function ReplyTo(db: Db, op: Op): Reply {
    match op
    case OpSubmit(p, now) => Submitted(SubmitVerdict(db, p, now))
    case OpIngest(p, now) => Ingested(Ingest(db, p, now).1)
    case _ => NoReply
  }

  lemma ClaimedKeysAreRows(db: Db, cap: nat, limit: int, now: Instant, locked: set<string>)
    ensures forall k :: k in ClaimKeys(db, cap, limit, now, locked) ==> k.hash in db.releases
  {
    ChosenAreRows(Sweep(db.releases, cap, now), cap, now, ClaimLimit(limit), locked);
  }

  /** The releases that an atomic claim hands to its caller. */
  ghost function ClaimReply(s: State, op: Op): seq<ClaimedRelease>
    requires op.OpClaim?
  {
    ClaimedKeysAreRows(s.db, s.cap, op.limit, op.now, op.locked);
    LoadClaimed(Claim(s.db, s.cap, op.limit, op.leaseSeconds, op.now, op.locked).releases,
                ClaimKeys(s.db, s.cap, op.limit, op.now, op.locked),
                op.now + LeaseNanos(op.leaseSeconds), s.db.rawItems)
  }

  lemma KeysAreLeased(tx: Tx, rs: Releases, cap: nat)
    requires TxSound(tx, rs, cap) && tx.phase == Selected
    ensures forall k :: k in tx.keys ==> k.hash in tx.leased && k.hash in rs
  {
    forall k | k in tx.keys ensures k.hash in tx.leased && k.hash in rs {
      var i :| 0 <= i < |tx.keys| && tx.keys[i] == k;
      assert k.hash in HashesOf(tx.keys);
    }
  }

  /** What an open claim that has selected would hand out now: its rows, with their raw items as they are. */
  ghost function OpenReply(w: World, cap: nat, tid: nat): seq<ClaimedRelease>
    requires WorldSound(w, cap) && tid in w.open && w.open[tid].phase == Selected
  {
    var tx := w.open[tid];
    KeysAreLeased(tx, w.db.releases, cap);
    LoadClaimed(CommitRows(w.db.releases, tx), tx.keys, Expires(tx), w.db.rawItems)
  }

  // ----- the replies of a trace -----

  /** The replies to the submits and ingests of the trace, in order. */
  ghost function Replies(w: World, cap: nat, trace: seq<Action>): seq<Reply> {
    if trace == [] then []
    else
      var init, a := trace[..|trace| - 1], trace[|trace| - 1];
      Replies(w, cap, init) +
      (if a.Finish? && Enabled(After(w, cap, init), cap, a)
       then [ReplyTo(After(w, cap, init).db, After(w, cap, init).writing[a.tid])]
       else [])
  }

  /** The same replies, given by the serial run at the point where it runs the operation. */
  ghost function SerialReplies(w: World, cap: nat, trace: seq<Action>, doomed: set<nat>): seq<Reply> {
    if trace == [] then []
    else
      var init, a := trace[..|trace| - 1], trace[|trace| - 1];
      SerialReplies(w, cap, init, doomed) +
      (if a.Finish? && Enabled(After(w, cap, init), cap, a)
       then [ReplyTo(Run(State(w.db, cap), Serial(w, cap, init, doomed)).db, After(w, cap, init).writing[a.tid])]
       else [])
  }

  /** What each committed claim handed to its caller, by transaction. */
  ghost function Claims(db: Db, cap: nat, trace: seq<Action>): map<nat, seq<ClaimedRelease>>
    requires cap >= 1
  {
    if trace == [] then map[]
    else
      var init, a := trace[..|trace| - 1], trace[|trace| - 1];
      var w := After(Quiet(db), cap, init);
      OpenClaimsHoldDisjointRows(db, cap, init);
      if a.Commit? && Enabled(w, cap, a) then Claims(db, cap, init)[a.tid := OpenReply(w, cap, a.tid)]
      else Claims(db, cap, init)
  }

  /** What the serial run hands out for each claim in it, by transaction. */
  ghost function SerialClaims(db: Db, cap: nat, trace: seq<Action>, doomed: set<nat>): map<nat, seq<ClaimedRelease>> {
    if trace == [] then map[]
    else
      var init, a := trace[..|trace| - 1], trace[|trace| - 1];
      var w := After(Quiet(db), cap, init);
      if a.SelectRows? && Enabled(w, cap, a) && a.tid !in doomed then
        SerialClaims(db, cap, init, doomed)
          [a.tid := ClaimReply(Run(State(db, cap), Serial(Quiet(db), cap, init, doomed)),
                               SerialOp(w, cap, a, doomed)[0])]
      else SerialClaims(db, cap, init, doomed)
  }

  // ----- one action -----

  /** A submit or an ingest that ends is answered alike by the serial and by the committed tables. */
  lemma SameReply(db: Db, w: World, doomed: set<nat>, tid: nat)
    requires Explains(db, w, doomed) && Apart(w) && tid in w.writing
    ensures ReplyTo(db, w.writing[tid]) == ReplyTo(w.db, w.writing[tid])
  {
    if Target(w.writing[tid]) in w.db.releases {
      TargetAgrees(db, w, doomed, tid);
    }
  }

  /** Two lists of rows that agree on what is handed out are loaded alike. */
  lemma {:induction false} SameLoad(rs: Releases, rs': Releases, keys: seq<Key>, expires: Instant,
                                    items: seq<RawItem>, items': seq<RawItem>)
    requires forall k :: k in keys ==> k.hash in rs && k.hash in rs'
    requires forall k :: k in keys ==>
               && rs[k.hash].token == rs'[k.hash].token && rs[k.hash].attempts == rs'[k.hash].attempts
               && ItemsOf(items, k.hash) == ItemsOf(items', k.hash)
    ensures LoadClaimed(rs, keys, expires, items) == LoadClaimed(rs', keys, expires, items')
    decreases |keys|
  {
    if keys != [] {
      SameLoad(rs, rs', keys[..|keys| - 1], expires, items, items');
      assert keys[|keys| - 1] in keys;
    }
  }

  /** The atomic claim of the serial run leaves the rows it takes as the open claim will. */
  lemma SelectedAlike(db: Db, w: World, cap: nat, doomed: set<nat>, tid: nat)
    requires Explains(db, w, doomed) && WorldSound(w, cap) && Enabled(w, cap, SelectRows(tid))
    ensures var tx := Selecting(w, cap, tid);
            && tx.keys == ClaimKeys(db, cap, tx.limit, tx.now, HeldByOthers(w, tid))
            && forall k :: k in tx.keys ==>
                 && k.hash in w.db.releases && k.hash in SerialClaim(db, w, cap, tid).releases
                 && SerialClaim(db, w, cap, tid).releases[k.hash] == CommitRows(w.db.releases, tx)[k.hash]
  {
    var tx := Selecting(w, cap, tid);
    SerialClaimSelectsTheSame(db, w, cap, doomed, tid);
    SelectKeepsTx(w, cap, tid);
    KeysAreLeased(tx, w.db.releases, cap);
    forall k | k in tx.keys
      ensures k.hash in SerialClaim(db, w, cap, tid).releases
      ensures SerialClaim(db, w, cap, tid).releases[k.hash] == CommitRows(w.db.releases, tx)[k.hash]
    {
      SerialClaimRow(db, w, cap, doomed, tid, k.hash);
    }
  }

  lemma SelectedLoadAlike(db: Db, w: World, cap: nat, doomed: set<nat>, tid: nat)
    requires Explains(db, w, doomed) && WorldSound(w, cap) && Enabled(w, cap, SelectRows(tid))
    ensures var tx, rs := Selecting(w, cap, tid), SerialClaim(db, w, cap, tid).releases;
            && (forall k :: k in tx.keys ==> k.hash in w.db.releases && k.hash in rs)
            && LoadClaimed(CommitRows(w.db.releases, tx), tx.keys, Expires(tx), w.db.rawItems)
               == LoadClaimed(rs, tx.keys, Expires(tx), db.rawItems)
  {
    var tx := Selecting(w, cap, tid);
    SelectedAlike(db, w, cap, doomed, tid);
    SameLoad(CommitRows(w.db.releases, tx), SerialClaim(db, w, cap, tid).releases, tx.keys, Expires(tx),
             w.db.rawItems, db.rawItems);
  }

  /** What a claim that selects is about to hand out. */
  lemma OpensWith(w: World, cap: nat, tid: nat)
    requires WorldSound(w, cap) && Enabled(w, cap, SelectRows(tid))
    ensures WorldSound(Next(w, cap, SelectRows(tid)), cap)
    ensures var tx := Selecting(w, cap, tid);
            && (forall k :: k in tx.keys ==> k.hash in w.db.releases)
            && OpenReply(Next(w, cap, SelectRows(tid)), cap, tid)
               == LoadClaimed(CommitRows(w.db.releases, tx), tx.keys, Expires(tx), w.db.rawItems)
  {
    SelectKeepsSound(w, cap, tid);
    SelectKeepsTx(w, cap, tid);
    KeysAreLeased(Selecting(w, cap, tid), w.db.releases, cap);
  }

  /** A claim that selects is about to hand out what the atomic claim of the serial run hands out. */
  lemma SelectReplies(s: State, w: World, tid: nat, doomed: set<nat>, op: Op)
    requires Explains(s.db, w, doomed) && WorldSound(w, s.cap) && Enabled(w, s.cap, SelectRows(tid))
    requires op == OpClaim(w.open[tid].limit, w.open[tid].leaseSeconds, w.open[tid].now, HeldByOthers(w, tid))
    ensures WorldSound(Next(w, s.cap, SelectRows(tid)), s.cap)
    ensures OpenReply(Next(w, s.cap, SelectRows(tid)), s.cap, tid) == ClaimReply(s, op)
  {
    OpensWith(w, s.cap, tid);
    SelectedLoadAlike(s.db, w, s.cap, doomed, tid);
    SerialClaimSelectsTheSame(s.db, w, s.cap, doomed, tid);
    ReplyOfClaim(s, w, tid, op, Selecting(w, s.cap, tid));
  }

  lemma ReplyOfClaim(s: State, w: World, tid: nat, op: Op, tx: Tx)
    requires tid in w.open && op == OpClaim(w.open[tid].limit, w.open[tid].leaseSeconds, w.open[tid].now,
                                            HeldByOthers(w, tid))
    requires tx.keys == ClaimKeys(s.db, s.cap, op.limit, op.now, op.locked)
    requires tx.now == op.now && tx.leaseSeconds == op.leaseSeconds
    requires forall k :: k in tx.keys ==> k.hash in SerialClaim(s.db, w, s.cap, tid).releases
    ensures ClaimReply(s, op) == LoadClaimed(SerialClaim(s.db, w, s.cap, tid).releases, tx.keys, Expires(tx),
                                             s.db.rawItems)
  {
  }

  /** The rows an open claim holds, and their raw items, are the same in both worlds. */
  ghost predicate HeldAlike(w: World, w': World, tid: nat)
    requires tid in w.open
  {
    && tid in w'.open && w'.open[tid] == w.open[tid]
    && forall h :: h in Held(w.open[tid]) && h in w.db.releases ==>
         && h in w'.db.releases && w'.db.releases[h] == w.db.releases[h]
         && ItemsOf(w'.db.rawItems, h) == ItemsOf(w.db.rawItems, h)
  }

  lemma HeldAlikeReplies(w: World, w': World, cap: nat, tid: nat)
    requires WorldSound(w, cap) && WorldSound(w', cap) && tid in w.open && w.open[tid].phase == Selected
    requires HeldAlike(w, w', tid)
    ensures OpenReply(w', cap, tid) == OpenReply(w, cap, tid)
  {
    var tx := w.open[tid];
    KeysAreLeased(tx, w.db.releases, cap);
    SameLoad(CommitRows(w'.db.releases, tx), CommitRows(w.db.releases, tx), tx.keys, Expires(tx), w'.db.rawItems,
             w.db.rawItems);
  }

  /** Whatever others do, what an open claim holds stays as it is. */
  lemma OthersHoldStill(w: World, cap: nat, a: Action, tid: nat)
    requires WorldSound(w, cap) && cap >= 1 && tid in w.open && w.open[tid].phase == Selected
    requires !Enabled(w, cap, a) || !(a.Commit? || a.Abort?) || a.tid != tid
    ensures HeldAlike(w, Next(w, cap, a), tid)
  {
    if Enabled(w, cap, a) {
      if a.Commit? {
        CommitIsHarmless(w, cap, a.tid, tid);
      } else if a.Finish? {
        WriteIsHarmless(w, cap, w.writing[a.tid], tid);
        IngestElsewhere(w, cap, w.writing[a.tid], tid);
      }
    }
  }

  lemma IngestElsewhere(w: World, cap: nat, op: Op, tid: nat)
    requires (op.OpSubmit? || op.OpIngest?) && tid in w.open && Target(op) !in Held(w.open[tid])
    ensures forall h :: h in Held(w.open[tid]) ==>
              ItemsOf(Step(State(w.db, cap), op).db.rawItems, h) == ItemsOf(w.db.rawItems, h)
  {
    forall h | h in Held(w.open[tid])
      ensures ItemsOf(Step(State(w.db, cap), op).db.rawItems, h) == ItemsOf(w.db.rawItems, h)
    {
      StepTables(State(w.db, cap), op);
      assert h != Target(op);
      if op.OpIngest? {
        ItemsOfSnoc(w.db.rawItems, ItemFrom(op.params, op.now), h);
      }
    }
  }

  // ----- whole traces -----

  /** What each pending claim of the serial run would hand out now. */
  ghost function Owed(w: World, cap: nat, doomed: set<nat>): map<nat, seq<ClaimedRelease>>
    requires WorldSound(w, cap)
  {
    map t | t in w.open && Pending(w, doomed, t) :: OpenReply(w, cap, t)
  }

  /** Every claim of the serial run is owed what it returns there, or has committed and returned it. */
  ghost predicate Balanced(open: set<nat>, owed: map<nat, seq<ClaimedRelease>>,
                           claims: map<nat, seq<ClaimedRelease>>, serial: map<nat, seq<ClaimedRelease>>)
  {
    && claims.Keys !! open && owed.Keys <= open
    && (forall t :: t in claims ==> t in serial && claims[t] == serial[t])
    && (forall t :: t in owed ==> t in serial && owed[t] == serial[t])
    && serial.Keys <= claims.Keys + owed.Keys
  }

  ghost predicate ClaimsAgree(w: World, cap: nat, doomed: set<nat>,
                              claims: map<nat, seq<ClaimedRelease>>, serial: map<nat, seq<ClaimedRelease>>)
    requires WorldSound(w, cap)
  {
    Balanced(w.open.Keys, Owed(w, cap, doomed), claims, serial) && claims.Keys <= w.begun
  }

  /** The other pending claims are owed what they were owed. */
  lemma OwedByOthers(w: World, cap: nat, a: Action, doomed: set<nat>, t: nat)
    requires WorldSound(w, cap) && cap >= 1
    requires Enabled(w, cap, a) ==> a.tid != t
    ensures WorldSound(Next(w, cap, a), cap)
    ensures t in Owed(Next(w, cap, a), cap, doomed) <==> t in Owed(w, cap, doomed)
    ensures t in Owed(w, cap, doomed) ==> Owed(Next(w, cap, a), cap, doomed)[t] == Owed(w, cap, doomed)[t]
  {
    NextKeepsSound(w, cap, a);
    PendingByOthers(w, cap, a, doomed, t);
    if Pending(w, doomed, t) {
      OthersHoldStill(w, cap, a, t);
      HeldAlikeReplies(w, Next(w, cap, a), cap, t);
    }
  }

  lemma PendingByOthers(w: World, cap: nat, a: Action, doomed: set<nat>, t: nat)
    requires Enabled(w, cap, a) ==> a.tid != t
    ensures Pending(Next(w, cap, a), doomed, t) <==> Pending(w, doomed, t)
  {
  }

  /** Two records of what is owed agree on every claim but one. */
  ghost predicate AgreeExcept(before: map<nat, seq<ClaimedRelease>>, after: map<nat, seq<ClaimedRelease>>, tid: nat) {
    forall t :: t != tid ==> (t in after <==> t in before) && (t in before ==> after[t] == before[t])
  }

  lemma OwnActionLeavesOthers(w: World, cap: nat, a: Action, doomed: set<nat>)
    requires WorldSound(w, cap) && cap >= 1 && Enabled(w, cap, a)
    ensures WorldSound(Next(w, cap, a), cap)
    ensures AgreeExcept(Owed(w, cap, doomed), Owed(Next(w, cap, a), cap, doomed), a.tid)
  {
    NextKeepsSound(w, cap, a);
    var before, after := Owed(w, cap, doomed), Owed(Next(w, cap, a), cap, doomed);
    forall t | t != a.tid ensures (t in after <==> t in before) && (t in before ==> after[t] == before[t]) {
      OwedByOthers(w, cap, a, doomed, t);
    }
  }

  lemma Replaced(before: map<nat, seq<ClaimedRelease>>, after: map<nat, seq<ClaimedRelease>>, tid: nat)
    requires AgreeExcept(before, after, tid)
    ensures tid in after ==> after == before[tid := after[tid]]
    ensures tid !in after ==> after == before - {tid}
  {
  }

  lemma OwedAfterSelect(w: World, cap: nat, doomed: set<nat>, tid: nat)
    requires WorldSound(w, cap) && cap >= 1 && Enabled(w, cap, SelectRows(tid)) && tid !in doomed
    ensures WorldSound(Next(w, cap, SelectRows(tid)), cap)
    ensures Owed(Next(w, cap, SelectRows(tid)), cap, doomed)
         == Owed(w, cap, doomed)[tid := OpenReply(Next(w, cap, SelectRows(tid)), cap, tid)]
  {
    OwnActionLeavesOthers(w, cap, SelectRows(tid), doomed);
    Replaced(Owed(w, cap, doomed), Owed(Next(w, cap, SelectRows(tid)), cap, doomed), tid);
  }

  lemma OwedAfterCommit(w: World, cap: nat, doomed: set<nat>, tid: nat)
    requires WorldSound(w, cap) && cap >= 1 && Enabled(w, cap, Commit(tid)) && tid !in doomed
    ensures WorldSound(Next(w, cap, Commit(tid)), cap)
    ensures tid in Owed(w, cap, doomed) && Owed(w, cap, doomed)[tid] == OpenReply(w, cap, tid)
    ensures Owed(Next(w, cap, Commit(tid)), cap, doomed) == Owed(w, cap, doomed) - {tid}
  {
    OwnActionLeavesOthers(w, cap, Commit(tid), doomed);
    Replaced(Owed(w, cap, doomed), Owed(Next(w, cap, Commit(tid)), cap, doomed), tid);
  }

  /** An action that is no step of a claim of the serial run. */
  ghost predicate Aside(w: World, cap: nat, a: Action, doomed: set<nat>) {
    Enabled(w, cap, a) ==> !a.Commit? && (a.SelectRows? || a.Abort? ==> a.tid in doomed)
  }

  lemma NotOwed(w: World, cap: nat, a: Action, doomed: set<nat>)
    requires WorldSound(w, cap) && cap >= 1 && Enabled(w, cap, a) && Aside(w, cap, a, doomed)
    ensures WorldSound(Next(w, cap, a), cap)
    ensures a.tid !in Owed(w, cap, doomed) && a.tid !in Owed(Next(w, cap, a), cap, doomed)
  {
    NextKeepsSound(w, cap, a);
  }

  lemma OwedAfterAside(w: World, cap: nat, a: Action, doomed: set<nat>)
    requires WorldSound(w, cap) && cap >= 1 && Aside(w, cap, a, doomed)
    ensures WorldSound(Next(w, cap, a), cap)
    ensures Owed(Next(w, cap, a), cap, doomed) == Owed(w, cap, doomed)
  {
    if Enabled(w, cap, a) {
      OwnActionLeavesOthers(w, cap, a, doomed);
      NotOwed(w, cap, a, doomed);
      Replaced(Owed(w, cap, doomed), Owed(Next(w, cap, a), cap, doomed), a.tid);
    }
  }

  lemma SelectBalances(open: set<nat>, owed: map<nat, seq<ClaimedRelease>>, claims: map<nat, seq<ClaimedRelease>>,
                       serial: map<nat, seq<ClaimedRelease>>, tid: nat, reply: seq<ClaimedRelease>)
    requires Balanced(open, owed, claims, serial) && tid in open
    ensures Balanced(open, owed[tid := reply], claims, serial[tid := reply])
  {
  }

  lemma CommitBalances(open: set<nat>, owed: map<nat, seq<ClaimedRelease>>, claims: map<nat, seq<ClaimedRelease>>,
                       serial: map<nat, seq<ClaimedRelease>>, tid: nat)
    requires Balanced(open, owed, claims, serial) && tid in owed
    ensures Balanced(open - {tid}, owed - {tid}, claims[tid := owed[tid]], serial)
  {
  }

  lemma SelectAgrees(s: State, w: World, doomed: set<nat>, tid: nat,
                     claims: map<nat, seq<ClaimedRelease>>, serial: map<nat, seq<ClaimedRelease>>)
    requires Explains(s.db, w, doomed) && WorldSound(w, s.cap) && s.cap >= 1
    requires Enabled(w, s.cap, SelectRows(tid)) && tid !in doomed && ClaimsAgree(w, s.cap, doomed, claims, serial)
    ensures WorldSound(Next(w, s.cap, SelectRows(tid)), s.cap)
    ensures ClaimsAgree(Next(w, s.cap, SelectRows(tid)), s.cap, doomed, claims,
                        serial[tid := ClaimReply(s, SerialOp(w, s.cap, SelectRows(tid), doomed)[0])])
  {
    SelectReplies(s, w, tid, doomed, SerialOp(w, s.cap, SelectRows(tid), doomed)[0]);
    OwedAfterSelect(w, s.cap, doomed, tid);
    var reply := OpenReply(Next(w, s.cap, SelectRows(tid)), s.cap, tid);
    SelectBalances(w.open.Keys, Owed(w, s.cap, doomed), claims, serial, tid, reply);
    assert Next(w, s.cap, SelectRows(tid)).open.Keys == w.open.Keys;
  }

  lemma CommitAgrees(w: World, cap: nat, doomed: set<nat>, tid: nat,
                     claims: map<nat, seq<ClaimedRelease>>, serial: map<nat, seq<ClaimedRelease>>)
    requires WorldSound(w, cap) && cap >= 1 && Enabled(w, cap, Commit(tid)) && tid !in doomed
    requires ClaimsAgree(w, cap, doomed, claims, serial)
    ensures WorldSound(Next(w, cap, Commit(tid)), cap)
    ensures ClaimsAgree(Next(w, cap, Commit(tid)), cap, doomed, claims[tid := OpenReply(w, cap, tid)], serial)
  {
    OwedAfterCommit(w, cap, doomed, tid);
    CommitBalances(w.open.Keys, Owed(w, cap, doomed), claims, serial, tid);
    assert Next(w, cap, Commit(tid)).open.Keys == w.open.Keys - {tid};
  }

  lemma AsideBalances(open: set<nat>, open': set<nat>, owed: map<nat, seq<ClaimedRelease>>,
                      claims: map<nat, seq<ClaimedRelease>>, serial: map<nat, seq<ClaimedRelease>>)
    requires Balanced(open, owed, claims, serial) && claims.Keys !! open' && owed.Keys <= open'
    ensures Balanced(open', owed, claims, serial)
  {
  }

  /** Actions that are no step of a claim of the serial run change no claim's reply. */
  lemma AsideAgrees(w: World, cap: nat, a: Action, doomed: set<nat>,
                    claims: map<nat, seq<ClaimedRelease>>, serial: map<nat, seq<ClaimedRelease>>)
    requires WorldSound(w, cap) && cap >= 1 && ClaimsAgree(w, cap, doomed, claims, serial) && Aside(w, cap, a, doomed)
    ensures WorldSound(Next(w, cap, a), cap)
    ensures ClaimsAgree(Next(w, cap, a), cap, doomed, claims, serial)
  {
    OwedAfterAside(w, cap, a, doomed);
    var open' := Next(w, cap, a).open.Keys;
    assert open' <= w.open.Keys + (Next(w, cap, a).begun - w.begun);
    AsideBalances(w.open.Keys, open', Owed(w, cap, doomed), claims, serial);
  }

  lemma {:induction false} TraceAgrees(db: Db, cap: nat, trace: seq<Action>, doomed: set<nat>)
    requires cap >= 1
    requires Aborted(Quiet(db), cap, trace) <= doomed && Committed(Quiet(db), cap, trace) !! doomed
    ensures WorldSound(After(Quiet(db), cap, trace), cap)
    ensures ClaimsAgree(After(Quiet(db), cap, trace), cap, doomed, Claims(db, cap, trace),
                        SerialClaims(db, cap, trace, doomed))
    ensures Replies(Quiet(db), cap, trace) == SerialReplies(Quiet(db), cap, trace, doomed)
    decreases |trace|
  {
    if trace != [] {
      var init, a := trace[..|trace| - 1], trace[|trace| - 1];
      var w, s := After(Quiet(db), cap, init), Run(State(db, cap), Serial(Quiet(db), cap, init, doomed));
      TraceAgrees(db, cap, init, doomed);
      TraceExplained(db, cap, init, doomed);
      var claims, serial := Claims(db, cap, init), SerialClaims(db, cap, init, doomed);
      if !Enabled(w, cap, a) {
        AsideAgrees(w, cap, a, doomed, claims, serial);
      } else if a.SelectRows? && a.tid !in doomed {
        SelectAgrees(s, w, doomed, a.tid, claims, serial);
      } else if a.Commit? {
        CommitAgrees(w, cap, doomed, a.tid, claims, serial);
      } else {
        AsideAgrees(w, cap, a, doomed, claims, serial);
        if a.Finish? {
          SameReply(s.db, w, doomed, a.tid);
        }
      }
    }
  }

  /**
   * Concurrent callers cannot tell an interleaving from the serial run: once all claims have ended,
   * each committed claim has returned the releases, tokens, attempts, expiries and raw items that its
   * atomic counterpart returns there, no other claim is in it, and all submits and ingests got the
   * replies they get there.
   */
  lemma InterleavingRepliesAreSerial(db: Db, cap: nat, trace: seq<Action>)
    requires cap >= 1 && After(Quiet(db), cap, trace).open == map[]
    ensures var doomed := Aborted(Quiet(db), cap, trace);
            && Claims(db, cap, trace) == SerialClaims(db, cap, trace, doomed)
            && Replies(Quiet(db), cap, trace) == SerialReplies(Quiet(db), cap, trace, doomed)
  {
    var doomed := Aborted(Quiet(db), cap, trace);
    FatesAreExclusive(db, cap, trace);
    TraceAgrees(db, cap, trace, doomed);
    var claims, serial := Claims(db, cap, trace), SerialClaims(db, cap, trace, doomed);
    assert claims.Keys == serial.Keys;
  }
}
