/**
 * Overlapping claims, submits and ingests with row locks and SKIP LOCKED. Every interleaving is explained
 * by a serial run of the store's own operations, so every theorem about runs holds of it too.
 */
module ConcurrentClaims {
  import opened Basics
  import opened Ordering
  import opened StoreModel
  import opened StoreSteps
  import Fencing

  datatype Phase = Begun | Swept | Selected

  /** An open claim: its parameters, and the rows it has locked with updates only it can see. */
  datatype Tx = Tx(
    limit: int, leaseSeconds: int, now: Instant, phase: Phase, swept: set<string>, keys: seq<Key>, leased: set<string>)

  /** The committed tables, the open claims, the open submits and ingests, and every transaction number used so far. */
  datatype World = World(db: Db, open: map<nat, Tx>, writing: map<nat, Op>, begun: set<nat>)

  datatype Action =
    | Begin(tid: nat, limit: int, leaseSeconds: int, now: Instant)
    | SweepRows(tid: nat)
    | SelectRows(tid: nat)
    | Commit(tid: nat)
    | Abort(tid: nat)
    | Hold(tid: nat, op: Op)
    | Finish(tid: nat)

  function Held(tx: Tx): set<string> {
    tx.swept + tx.leased
  }

  /** A submit or an ingest locks the row of its release, or the place of one still to come, and works on that. */
  function Target(op: Op): string {
    match op
    case OpSubmit(p, _) => p.infohash
    case OpIngest(p, _) => p.infohash
    case _ => ""
  }

  /** The rows that open submits and ingests hold. */
  function Written(w: World): set<string> {
    set t | t in w.writing :: Target(w.writing[t])
  }

  /** The rows that open claims other than tid hold. */
  function ClaimedByOthers(w: World, tid: nat): set<string> {
    set t, h | t in w.open && t != tid && h in Held(w.open[t]) :: h
  }

  /** The rows that transactions other than the claim tid hold. */
  function HeldByOthers(w: World, tid: nat): set<string> {
    ClaimedByOthers(w, tid) + Written(w)
  }

  function DueRows(rs: Releases, cap: nat, now: Instant): set<string> {
    set h | h in rs && SweepDue(rs[h], cap, now)
  }

  predicate Locked(w: World, h: string) {
    h in Written(w) || exists t :: t in w.open && h in Held(w.open[t])
  }

  /**
   * A transaction waits for a row it would change while another holds it; a SELECT ... SKIP LOCKED never
   * waits. What a submit or an ingest does is seen by others when it ends.
   */
  predicate Enabled(w: World, cap: nat, a: Action) {
    match a
    case Begin(tid, _, _, _) => tid !in w.begun
    case SweepRows(tid) =>
      && tid in w.open && w.open[tid].phase == Begun
      && DueRows(w.db.releases, cap, w.open[tid].now) !! HeldByOthers(w, tid)
    case SelectRows(tid) => tid in w.open && w.open[tid].phase == Swept
    case Commit(tid) => tid in w.open && w.open[tid].phase == Selected
    case Abort(tid) => tid in w.open || tid in w.writing
    case Hold(tid, op) => tid !in w.begun && (op.OpSubmit? || op.OpIngest?) && !Locked(w, Target(op))
    case Finish(tid) => tid in w.writing
  }

  function Expires(tx: Tx): Instant {
    tx.now + LeaseNanos(tx.leaseSeconds)
  }

  /** The row as the transaction will leave it. */
  function RowUnder(tx: Tx, r: Release, h: string): Release {
    if h in tx.swept then SweepRow(r, tx.now)
    else if h in tx.leased then LeaseRow(r, tx.now, Expires(tx))
    else r
  }

  function CommitRows(rs: Releases, tx: Tx): Releases {
    map h | h in rs :: RowUnder(tx, rs[h], h)
  }

  /** The rows SelectRows(tid) locks, in the order it returns them. */
  ghost function SelectedKeys(w: World, cap: nat, tid: nat): seq<Key>
    requires tid in w.open
  {
    Chosen(w.db.releases, cap, w.open[tid].now, ClaimLimit(w.open[tid].limit), HeldByOthers(w, tid))
  }

  ghost function SelectedRows(w: World, cap: nat, tid: nat): set<string>
    requires tid in w.open
  {
    HashesOf(SelectedKeys(w, cap, tid))
  }

  /** The claim tid once it has swept. */
  function Sweeping(w: World, cap: nat, tid: nat): Tx
    requires tid in w.open
  {
    w.open[tid].(phase := Swept, swept := DueRows(w.db.releases, cap, w.open[tid].now))
  }

  /** The claim tid once it has selected. */
  ghost function Selecting(w: World, cap: nat, tid: nat): Tx
    requires tid in w.open
  {
    w.open[tid].(phase := Selected, keys := SelectedKeys(w, cap, tid), leased := SelectedRows(w, cap, tid))
  }

  /** One action; an action that is not enabled waits, leaving the world as it is. */
  ghost function Next(w: World, cap: nat, a: Action): World {
    if !Enabled(w, cap, a) then w
    else
      match a
      case Begin(tid, limit, lease, now) =>
        w.(open := w.open[tid := Tx(limit, lease, now, Begun, {}, [], {})], begun := w.begun + {tid})
      case SweepRows(tid) =>
        w.(open := w.open[tid := Sweeping(w, cap, tid)])
      case SelectRows(tid) =>
        w.(open := w.open[tid := Selecting(w, cap, tid)])
      case Commit(tid) =>
        w.(db := w.db.(releases := CommitRows(w.db.releases, w.open[tid])), open := w.open - {tid})
      case Abort(tid) => w.(open := w.open - {tid}, writing := w.writing - {tid})
      case Hold(tid, op) => w.(writing := w.writing[tid := op], begun := w.begun + {tid})
      case Finish(tid) => w.(db := Step(State(w.db, cap), w.writing[tid]).db, writing := w.writing - {tid})
  }

  ghost function After(w: World, cap: nat, trace: seq<Action>): World {
    if trace == [] then w else Next(After(w, cap, trace[..|trace| - 1]), cap, trace[|trace| - 1])
  }

  ghost function Aborted(w: World, cap: nat, trace: seq<Action>): set<nat> {
    if trace == [] then {}
    else
      var init, a := trace[..|trace| - 1], trace[|trace| - 1];
      Aborted(w, cap, init) + (if a.Abort? && Enabled(After(w, cap, init), cap, a) then {a.tid} else {})
  }

  ghost function Committed(w: World, cap: nat, trace: seq<Action>): set<nat> {
    if trace == [] then {}
    else
      var init, a := trace[..|trace| - 1], trace[|trace| - 1];
      Committed(w, cap, init) +
      (if (a.Commit? || a.Finish?) && Enabled(After(w, cap, init), cap, a) then {a.tid} else {})
  }

  // ----- invariants of the world -----

  ghost predicate TxSound(tx: Tx, rs: Releases, cap: nat) {
    && (tx.phase == Begun ==> tx.swept == {})
    && (tx.phase != Selected ==> tx.leased == {})
    && (tx.phase == Selected ==> tx.leased == HashesOf(tx.keys))
    && (tx.phase != Begun ==> DueRows(rs, cap, tx.now) <= tx.swept)
    && (forall h :: h in tx.swept ==> h in rs && SweepDue(rs[h], cap, tx.now))
    && (forall h :: h in tx.leased ==> h in rs && Claimable(rs[h], cap, tx.now))
  }

  /** No row is held by two open claims. */
  ghost predicate Disjoint(w: World) {
    forall t, u :: t in w.open && u in w.open && t != u ==> Held(w.open[t]) !! Held(w.open[u])
  }

  /** Open submits and ingests hold a row each, which nobody else holds. */
  ghost predicate Apart(w: World) {
    && (forall u :: u in w.writing ==> w.writing[u].OpSubmit? || w.writing[u].OpIngest?)
    && (forall t, u :: t in w.open && u in w.writing ==> Target(w.writing[u]) !in Held(w.open[t]))
    && (forall u, v :: u in w.writing && v in w.writing && u != v ==> Target(w.writing[u]) != Target(w.writing[v]))
  }

  ghost predicate WorldSound(w: World, cap: nat) {
    && w.open.Keys <= w.begun && w.writing.Keys <= w.begun && w.open.Keys !! w.writing.Keys
    && Disjoint(w) && Apart(w)
    && forall t :: t in w.open ==> TxSound(w.open[t], w.db.releases, cap)
  }

  lemma SelectKeepsTx(w: World, cap: nat, tid: nat)
    requires WorldSound(w, cap) && Enabled(w, cap, SelectRows(tid))
    ensures TxSound(Selecting(w, cap, tid), w.db.releases, cap)
    ensures SelectedRows(w, cap, tid) !! HeldByOthers(w, tid)
  {
    forall h | h in SelectedRows(w, cap, tid)
      ensures h in w.db.releases && Claimable(w.db.releases[h], cap, w.open[tid].now) && h !in HeldByOthers(w, tid)
    {
      ChosenAreFree(w.db.releases, cap, w.open[tid].now, ClaimLimit(w.open[tid].limit), HeldByOthers(w, tid), h);
    }
  }

  lemma SelectKeepsSound(w: World, cap: nat, tid: nat)
    requires WorldSound(w, cap) && Enabled(w, cap, SelectRows(tid))
    ensures WorldSound(Next(w, cap, SelectRows(tid)), cap)
  {
    SelectKeepsTx(w, cap, tid);
    var tx' := Selecting(w, cap, tid);
    forall t | t in w.open && t != tid ensures Held(w.open[t]) !! Held(tx') {
      assert Held(w.open[t]) !! Held(w.open[tid]);
      assert Held(w.open[t]) <= HeldByOthers(w, tid);
    }
    forall u | u in w.writing ensures Target(w.writing[u]) !in Held(tx') {
      assert Target(w.writing[u]) in HeldByOthers(w, tid) && Target(w.writing[u]) !in Held(w.open[tid]);
    }
    assert Next(w, cap, SelectRows(tid)) == w.(open := w.open[tid := tx']);
  }

  lemma SweepKeepsTx(w: World, cap: nat, tid: nat)
    requires WorldSound(w, cap) && Enabled(w, cap, SweepRows(tid))
    ensures TxSound(Sweeping(w, cap, tid), w.db.releases, cap)
    ensures Held(Sweeping(w, cap, tid)) == DueRows(w.db.releases, cap, w.open[tid].now)
  {
  }

  lemma SweepKeepsSound(w: World, cap: nat, tid: nat)
    requires WorldSound(w, cap) && Enabled(w, cap, SweepRows(tid))
    ensures WorldSound(Next(w, cap, SweepRows(tid)), cap)
  {
    SweepKeepsTx(w, cap, tid);
    var tx' := Sweeping(w, cap, tid);
    forall t | t in w.open && t != tid ensures Held(w.open[t]) !! Held(tx') {
      assert Held(w.open[t]) <= HeldByOthers(w, tid);
    }
    forall u | u in w.writing ensures Target(w.writing[u]) !in Held(tx') {
      assert Target(w.writing[u]) in HeldByOthers(w, tid);
    }
    assert Next(w, cap, SweepRows(tid)) == w.(open := w.open[tid := tx']);
  }

  /** The rows of rs' that differ from rs lie outside `held`, and none has become due. */
  ghost predicate Harmless(rs: Releases, rs': Releases, held: set<string>, cap: nat) {
    && rs.Keys <= rs'.Keys
    && (forall h :: h in held && h in rs ==> rs'[h] == rs[h])
    && (forall h, now :: h in rs' && SweepDue(rs'[h], cap, now) ==> h in rs && SweepDue(rs[h], cap, now))
  }

  lemma HarmlessKeepsTx(tx: Tx, rs: Releases, rs': Releases, cap: nat)
    requires TxSound(tx, rs, cap) && Harmless(rs, rs', Held(tx), cap)
    ensures TxSound(tx, rs', cap)
  {
  }

  lemma CommitIsHarmless(w: World, cap: nat, tid: nat, t: nat)
    requires WorldSound(w, cap) && Enabled(w, cap, Commit(tid)) && t in w.open && t != tid
    ensures Harmless(w.db.releases, CommitRows(w.db.releases, w.open[tid]), Held(w.open[t]), cap)
  {
    assert Held(w.open[t]) !! Held(w.open[tid]);
  }

  lemma WriteIsHarmless(w: World, cap: nat, op: Op, t: nat)
    requires cap >= 1 && (op.OpSubmit? || op.OpIngest?) && t in w.open && Target(op) !in Held(w.open[t])
    ensures Harmless(w.db.releases, Step(State(w.db, cap), op).db.releases, Held(w.open[t]), cap)
  {
    var s := State(w.db, cap);
    var rs, rs' := w.db.releases, Step(s, op).db.releases;
    forall h | h in rs ensures h in rs' && (h != Target(op) ==> rs'[h] == rs[h]) { StepRow(s, op, h); }
    forall h, now | h in rs' && SweepDue(rs'[h], cap, now) ensures h in rs && SweepDue(rs[h], cap, now) {
      if h in rs { StepRow(s, op, h); } else { NewRow(s, op, h); }
    }
  }

  lemma CommitKeepsSound(w: World, cap: nat, tid: nat)
    requires WorldSound(w, cap) && Enabled(w, cap, Commit(tid))
    ensures WorldSound(Next(w, cap, Commit(tid)), cap)
  {
    forall t | t in w.open && t != tid ensures TxSound(w.open[t], CommitRows(w.db.releases, w.open[tid]), cap) {
      CommitIsHarmless(w, cap, tid, t);
      HarmlessKeepsTx(w.open[t], w.db.releases, CommitRows(w.db.releases, w.open[tid]), cap);
    }
  }

  lemma FinishKeepsSound(w: World, cap: nat, tid: nat)
    requires WorldSound(w, cap) && cap >= 1 && tid in w.writing
    ensures WorldSound(Next(w, cap, Finish(tid)), cap)
  {
    var op := w.writing[tid];
    forall t | t in w.open ensures TxSound(w.open[t], Step(State(w.db, cap), op).db.releases, cap) {
      WriteIsHarmless(w, cap, op, t);
      HarmlessKeepsTx(w.open[t], w.db.releases, Step(State(w.db, cap), op).db.releases, cap);
    }
  }

  lemma NextKeepsSound(w: World, cap: nat, a: Action)
    requires WorldSound(w, cap) && cap >= 1
    ensures WorldSound(Next(w, cap, a), cap)
  {
    if Enabled(w, cap, a) {
      match a
      case Begin(_, _, _, _) =>
      case SweepRows(tid) => SweepKeepsSound(w, cap, tid);
      case SelectRows(tid) => SelectKeepsSound(w, cap, tid);
      case Commit(tid) => CommitKeepsSound(w, cap, tid);
      case Abort(_) =>
      case Hold(_, _) =>
      case Finish(tid) => FinishKeepsSound(w, cap, tid);
    }
  }

  /** A world in which no transaction has begun yet. */
  function Quiet(db: Db): World {
    World(db, map[], map[], {})
  }

  /** Row locks exclude: whatever the interleaving, no row is held by two open transactions. */
  lemma {:induction false} OpenClaimsHoldDisjointRows(db: Db, cap: nat, trace: seq<Action>)
    requires cap >= 1
    ensures WorldSound(After(Quiet(db), cap, trace), cap)
    decreases |trace|
  {
    if trace != [] {
      OpenClaimsHoldDisjointRows(db, cap, trace[..|trace| - 1]);
      NextKeepsSound(After(Quiet(db), cap, trace[..|trace| - 1]), cap, trace[|trace| - 1]);
    }
  }

  /** Every transaction that began is open, aborted or committed, and only one of these. */
  ghost predicate Fates(w: World, aborted: set<nat>, committed: set<nat>) {
    && aborted !! committed && (aborted + committed) !! (w.open.Keys + w.writing.Keys)
    && aborted + committed + w.open.Keys + w.writing.Keys == w.begun
  }

  lemma NextFates(w: World, cap: nat, a: Action, aborted: set<nat>, committed: set<nat>)
    requires w.open.Keys !! w.writing.Keys && Fates(w, aborted, committed) && Enabled(w, cap, a)
    ensures Fates(Next(w, cap, a), aborted + (if a.Abort? then {a.tid} else {}),
                  committed + (if a.Commit? || a.Finish? then {a.tid} else {}))
  {
    var w' := Next(w, cap, a);
    match a
    case Begin(tid, _, _, _) => assert w'.open.Keys == w.open.Keys + {tid};
    case Hold(tid, _) => assert w'.writing.Keys == w.writing.Keys + {tid};
    case SweepRows(tid) => assert w'.open.Keys == w.open.Keys;
    case SelectRows(tid) => assert w'.open.Keys == w.open.Keys;
    case _ => assert w'.open.Keys + w'.writing.Keys == w.open.Keys + w.writing.Keys - {a.tid};
  }

  /** A transaction ends once: it is open, committed or aborted. */
  lemma {:induction false} FatesAreExclusive(db: Db, cap: nat, trace: seq<Action>)
    requires cap >= 1
    ensures Fates(After(Quiet(db), cap, trace), Aborted(Quiet(db), cap, trace), Committed(Quiet(db), cap, trace))
    decreases |trace|
  {
    if trace != [] {
      var init, a := trace[..|trace| - 1], trace[|trace| - 1];
      var w := After(Quiet(db), cap, init);
      FatesAreExclusive(db, cap, init);
      OpenClaimsHoldDisjointRows(db, cap, init);
      if Enabled(w, cap, a) {
        NextFates(w, cap, a, Aborted(Quiet(db), cap, init), Committed(Quiet(db), cap, init));
      }
    }
  }

  // ----- the serial explanation -----

  /**
   * Each claim that goes on to commit takes effect when it selects, passing over the rows others hold then;
   * each submit and ingest when it ends.
   */
  ghost function SerialOp(w: World, cap: nat, a: Action, doomed: set<nat>): seq<Op> {
    if !Enabled(w, cap, a) then []
    else
      match a
      case SelectRows(tid) =>
        if tid in doomed then []
        else [OpClaim(w.open[tid].limit, w.open[tid].leaseSeconds, w.open[tid].now, HeldByOthers(w, tid))]
      case Finish(tid) => [w.writing[tid]]
      case _ => []
  }

  ghost function Serial(w: World, cap: nat, trace: seq<Action>, doomed: set<nat>): seq<Op> {
    if trace == [] then []
    else
      var init := trace[..|trace| - 1];
      Serial(w, cap, init, doomed) + SerialOp(After(w, cap, init), cap, trace[|trace| - 1], doomed)
  }

  /** t has taken its rows and will commit. */
  ghost predicate Pending(w: World, doomed: set<nat>, t: nat) {
    t in w.open && t !in doomed && w.open[t].phase == Selected
  }

  ghost predicate Owns(w: World, doomed: set<nat>, t: nat, h: string) {
    Pending(w, doomed, t) && h in Held(w.open[t])
  }

  /** The pending claim that holds h, if there is one. */
  ghost function Owner(w: World, doomed: set<nat>, h: string): (o: Option<nat>)
    ensures o.Some? ==> Owns(w, doomed, o.value, h)
    ensures o.None? ==> forall t :: !Owns(w, doomed, t, h)
  {
    if exists t :: Owns(w, doomed, t, h) then
      var t :| Owns(w, doomed, t, h);
      Some(t)
    else None
  }

  /** The committed row of h with the update of the pending claim that holds it already in place. */
  ghost function Overlay(w: World, doomed: set<nat>, h: string): Release
    requires h in w.db.releases
  {
    match Owner(w, doomed, h)
    case None => w.db.releases[h]
    case Some(t) => RowUnder(w.open[t], w.db.releases[h], h)
  }

  ghost predicate Explains(db: Db, w: World, doomed: set<nat>) {
    && db.rawItems == w.db.rawItems && db.events == w.db.events
    && db.releases.Keys == w.db.releases.Keys
    && forall h :: h in w.db.releases ==> db.releases[h] == Overlay(w, doomed, h)
  }

  lemma OwnerIsUnique(w: World, doomed: set<nat>, t: nat, h: string)
    requires Disjoint(w) && Owns(w, doomed, t, h)
    ensures Owner(w, doomed, h) == Some(t)
  {
    var u := Owner(w, doomed, h).value;
    assert h in Held(w.open[u]) && h in Held(w.open[t]);
  }

  /** The same claims pending on h before and after: the same overlay. */
  lemma OverlayStays(w: World, w': World, doomed: set<nat>, h: string)
    requires Disjoint(w) && h in w.db.releases && h in w'.db.releases && w.db.releases[h] == w'.db.releases[h]
    requires forall t :: Owns(w, doomed, t, h) ==> Owns(w', doomed, t, h) && w'.open[t] == w.open[t]
    requires forall t :: Owns(w', doomed, t, h) ==> Owns(w, doomed, t, h)
    ensures Overlay(w', doomed, h) == Overlay(w, doomed, h)
  {
    if Owner(w', doomed, h).Some? {
      OwnerIsUnique(w, doomed, Owner(w', doomed, h).value, h);
    }
  }

  lemma FreeRowsAgree(db: Db, w: World, doomed: set<nat>, tid: nat, h: string)
    requires Explains(db, w, doomed) && !Pending(w, doomed, tid)
    requires h in w.db.releases && h !in HeldByOthers(w, tid)
    ensures db.releases[h] == w.db.releases[h]
  {
    assert db.releases[h] == Overlay(w, doomed, h);
  }

  /** In the serial tables exactly the rows that tid has swept are due by its clock. */
  lemma DueIsSwept(db: Db, w: World, cap: nat, doomed: set<nat>, tid: nat, h: string)
    requires Explains(db, w, doomed) && WorldSound(w, cap)
    requires tid in w.open && w.open[tid].phase == Swept && h in w.db.releases
    ensures SweepDue(db.releases[h], cap, w.open[tid].now) <==> h in w.open[tid].swept
    ensures h in w.open[tid].swept ==> db.releases[h] == w.db.releases[h]
  {
    assert db.releases[h] == Overlay(w, doomed, h);
    assert TxSound(w.open[tid], w.db.releases, cap);
    if Owner(w, doomed, h).Some? {
      var t := Owner(w, doomed, h).value;
      assert TxSound(w.open[t], w.db.releases, cap);
      assert Held(w.open[t]) !! Held(w.open[tid]);
    }
  }

  lemma SerialClaimSelectsTheSame(db: Db, w: World, cap: nat, doomed: set<nat>, tid: nat)
    requires Explains(db, w, doomed) && WorldSound(w, cap)
    requires Enabled(w, cap, SelectRows(tid))
    ensures ClaimKeys(db, cap, w.open[tid].limit, w.open[tid].now, HeldByOthers(w, tid)) == SelectedKeys(w, cap, tid)
  {
    var now, locked := w.open[tid].now, HeldByOthers(w, tid);
    var swept, rs := Sweep(db.releases, cap, now), w.db.releases;
    forall h | h in rs && h !in locked
      ensures Claimable(swept[h], cap, now) <==> Claimable(rs[h], cap, now)
      ensures swept[h].publishedAt == rs[h].publishedAt
    {
      FreeRowsAgree(db, w, doomed, tid, h);
      DueIsSwept(db, w, cap, doomed, tid, h);
    }
    assert ClaimableKeys(swept, cap, now, locked) == ClaimableKeys(rs, cap, now, locked);
  }

  ghost function SerialClaim(db: Db, w: World, cap: nat, tid: nat): Db
    requires tid in w.open
  {
    var tx := w.open[tid];
    Claim(db, cap, tx.limit, tx.leaseSeconds, tx.now, HeldByOthers(w, tid))
  }

  lemma ClaimRowUnder(db: Db, cap: nat, tx: Tx, locked: set<string>, h: string)
    requires h in db.releases
    requires SweepDue(db.releases[h], cap, tx.now) <==> h in tx.swept
    requires tx.leased == HashesOf(ClaimKeys(db, cap, tx.limit, tx.now, locked))
    ensures h in Claim(db, cap, tx.limit, tx.leaseSeconds, tx.now, locked).releases
    ensures Claim(db, cap, tx.limit, tx.leaseSeconds, tx.now, locked).releases[h] == RowUnder(tx, db.releases[h], h)
  {
    ClaimRow(db, cap, tx.limit, tx.leaseSeconds, tx.now, locked, h);
  }

  lemma SerialClaimRow(db: Db, w: World, cap: nat, doomed: set<nat>, tid: nat, h: string)
    requires Explains(db, w, doomed) && WorldSound(w, cap)
    requires Enabled(w, cap, SelectRows(tid)) && h in w.db.releases
    ensures h in SerialClaim(db, w, cap, tid).releases
    ensures SerialClaim(db, w, cap, tid).releases[h] == RowUnder(Selecting(w, cap, tid), db.releases[h], h)
    ensures h in Held(Selecting(w, cap, tid)) ==> db.releases[h] == w.db.releases[h]
  {
    SerialClaimSelectsTheSame(db, w, cap, doomed, tid);
    DueIsSwept(db, w, cap, doomed, tid, h);
    ClaimRowUnder(db, cap, Selecting(w, cap, tid), HeldByOthers(w, tid), h);
    SelectKeepsTx(w, cap, tid);
    if h in SelectedRows(w, cap, tid) {
      FreeRowsAgree(db, w, doomed, tid, h);
    }
  }

  /** A claim that becomes pending owns what it holds, and every other overlay is as before. */
  lemma NewOwnerOverlay(w: World, doomed: set<nat>, tid: nat, tx: Tx, h: string)
    requires Disjoint(w) && !Pending(w, doomed, tid) && h in w.db.releases
    requires tx.phase == Selected && tid !in doomed && Disjoint(w.(open := w.open[tid := tx]))
    ensures Overlay(w.(open := w.open[tid := tx]), doomed, h)
            == if h in Held(tx) then RowUnder(tx, w.db.releases[h], h) else Overlay(w, doomed, h)
  {
    var w' := w.(open := w.open[tid := tx]);
    if h in Held(tx) {
      OwnerIsUnique(w', doomed, tid, h);
    } else {
      OverlayStays(w, w', doomed, h);
    }
  }

  lemma ExplainSelectedRow(db: Db, w: World, cap: nat, doomed: set<nat>, tid: nat, h: string)
    requires Explains(db, w, doomed) && WorldSound(w, cap)
    requires Enabled(w, cap, SelectRows(tid)) && tid !in doomed && h in w.db.releases
    ensures h in SerialClaim(db, w, cap, tid).releases
    ensures SerialClaim(db, w, cap, tid).releases[h] == Overlay(Next(w, cap, SelectRows(tid)), doomed, h)
  {
    SerialClaimRow(db, w, cap, doomed, tid, h);
    SelectKeepsSound(w, cap, tid);
    NewOwnerOverlay(w, doomed, tid, Selecting(w, cap, tid), h);
  }

  lemma ExplainCommittedRow(w: World, cap: nat, doomed: set<nat>, tid: nat, h: string)
    requires Disjoint(w)
    requires Enabled(w, cap, Commit(tid)) && tid !in doomed && h in w.db.releases
    ensures Overlay(Next(w, cap, Commit(tid)), doomed, h) == Overlay(w, doomed, h)
  {
    var w' := Next(w, cap, Commit(tid));
    if h in Held(w.open[tid]) {
      OwnerIsUnique(w, doomed, tid, h);
      if Owner(w', doomed, h).Some? {
        assert Owns(w, doomed, Owner(w', doomed, h).value, h);
        OwnerIsUnique(w, doomed, Owner(w', doomed, h).value, h);
      }
    } else {
      OverlayStays(w, w', doomed, h);
    }
  }

  /** What a submit or an ingest works on is the same in the serial and in the committed tables. */
  lemma TargetAgrees(db: Db, w: World, doomed: set<nat>, tid: nat)
    requires Explains(db, w, doomed) && Apart(w) && tid in w.writing && Target(w.writing[tid]) in w.db.releases
    ensures db.releases[Target(w.writing[tid])] == w.db.releases[Target(w.writing[tid])]
  {
    var h := Target(w.writing[tid]);
    assert db.releases[h] == Overlay(w, doomed, h) == w.db.releases[h];
  }

  /** What the operation makes of two stores that agree on all but other rows. */
  ghost predicate WritesAlike(before: Db, before': Db, after: Db, after': Db, target: string) {
    && after.rawItems == after'.rawItems && after.events == after'.events && after.releases.Keys == after'.releases.Keys
    && before'.releases.Keys == before.releases.Keys <= after'.releases.Keys <= before'.releases.Keys + {target}
    && (target in after.releases ==> after.releases[target] == after'.releases[target])
    && (forall h :: h in before.releases && h != target ==>
          after.releases[h] == before.releases[h] && after'.releases[h] == before'.releases[h])
  }

  lemma SubmitsAlike(db: Db, db': Db, cap: nat, p: SubmitParams, now: Instant)
    requires db.rawItems == db'.rawItems && db.events == db'.events && db.releases.Keys == db'.releases.Keys
    requires p.infohash in db.releases ==> db.releases[p.infohash] == db'.releases[p.infohash]
    ensures WritesAlike(db, db', Submit(db, cap, p, now), Submit(db', cap, p, now), p.infohash)
  {
  }

  lemma IngestsAlike(db: Db, db': Db, p: IngestParams, now: Instant)
    requires db.rawItems == db'.rawItems && db.events == db'.events && db.releases.Keys == db'.releases.Keys
    requires p.infohash in db.releases ==> db.releases[p.infohash] == db'.releases[p.infohash]
    ensures WritesAlike(db, db', Ingest(db, p, now).0, Ingest(db', p, now).0, p.infohash)
  {
  }

  /** It does the same to the serial and to the committed tables. */
  lemma WriteAgrees(db: Db, w: World, cap: nat, doomed: set<nat>, tid: nat)
    requires Explains(db, w, doomed) && Apart(w) && tid in w.writing
    ensures var op := w.writing[tid];
            WritesAlike(db, w.db, Step(State(db, cap), op).db, Step(State(w.db, cap), op).db, Target(op))
  {
    if Target(w.writing[tid]) in w.db.releases {
      TargetAgrees(db, w, doomed, tid);
    }
    match w.writing[tid]
    case OpSubmit(p, now) => SubmitsAlike(db, w.db, cap, p, now);
    case OpIngest(p, now) => IngestsAlike(db, w.db, p, now);
  }

  lemma ExplainFinish(db: Db, w: World, cap: nat, doomed: set<nat>, tid: nat)
    requires Explains(db, w, doomed) && tid in w.writing && Disjoint(w) && Apart(w)
    ensures Explains(Step(State(db, cap), w.writing[tid]).db, Next(w, cap, Finish(tid)), doomed)
  {
    var op := w.writing[tid];
    var db', w' := Step(State(db, cap), op).db, Next(w, cap, Finish(tid));
    WriteAgrees(db, w, cap, doomed, tid);
    forall h | h in w'.db.releases ensures db'.releases[h] == Overlay(w', doomed, h) {
      if h != Target(op) {
        OverlayStays(w, w', doomed, h);
      }
    }
  }

  /** Neither the committed tables nor the pending claims change. */
  ghost predicate SamePending(w: World, w': World, doomed: set<nat>) {
    && w'.db == w.db
    && (forall t :: Pending(w, doomed, t) ==> Pending(w', doomed, t) && w'.open[t] == w.open[t])
    && (forall t :: Pending(w', doomed, t) ==> Pending(w, doomed, t))
  }

  lemma ExplainQuietStep(db: Db, w: World, w': World, doomed: set<nat>)
    requires Explains(db, w, doomed) && Disjoint(w) && SamePending(w, w', doomed)
    ensures Explains(db, w', doomed)
  {
    forall h | h in w.db.releases ensures db.releases[h] == Overlay(w', doomed, h) {
      OverlayStays(w, w', doomed, h);
    }
  }

  lemma QuietStep(w: World, cap: nat, a: Action, doomed: set<nat>)
    requires w.open.Keys <= w.begun && Enabled(w, cap, a)
    requires a.Begin? || a.SweepRows? || a.Hold? || ((a.Abort? || a.SelectRows?) && a.tid in doomed)
    ensures SamePending(w, Next(w, cap, a), doomed)
  {
    var tid := a.tid;
    var w' := Next(w, cap, a);
    assert !Pending(w, doomed, tid) && !Pending(w', doomed, tid);
    assert forall t :: t != tid ==> (t in w.open <==> t in w'.open) && (t in w.open ==> w'.open[t] == w.open[t]);
  }

  lemma ExplainSelect(db: Db, w: World, cap: nat, doomed: set<nat>, tid: nat)
    requires Explains(db, w, doomed) && WorldSound(w, cap)
    requires Enabled(w, cap, SelectRows(tid)) && tid !in doomed
    ensures Explains(SerialClaim(db, w, cap, tid), Next(w, cap, SelectRows(tid)), doomed)
  {
    forall h | h in w.db.releases
      ensures h in SerialClaim(db, w, cap, tid).releases
      ensures SerialClaim(db, w, cap, tid).releases[h] == Overlay(Next(w, cap, SelectRows(tid)), doomed, h)
    {
      ExplainSelectedRow(db, w, cap, doomed, tid, h);
    }
  }

  lemma ExplainCommit(db: Db, w: World, cap: nat, doomed: set<nat>, tid: nat)
    requires Explains(db, w, doomed) && Disjoint(w)
    requires Enabled(w, cap, Commit(tid)) && tid !in doomed
    ensures Explains(db, Next(w, cap, Commit(tid)), doomed)
  {
    forall h | h in w.db.releases ensures db.releases[h] == Overlay(Next(w, cap, Commit(tid)), doomed, h) {
      ExplainCommittedRow(w, cap, doomed, tid, h);
    }
  }

  lemma StepExplains(s: State, w: World, a: Action, doomed: set<nat>)
    requires Explains(s.db, w, doomed) && WorldSound(w, s.cap)
    requires a.Commit? && Enabled(w, s.cap, a) ==> a.tid !in doomed
    requires a.Abort? && Enabled(w, s.cap, a) ==> a.tid in doomed
    ensures Explains(Run(s, SerialOp(w, s.cap, a, doomed)).db, Next(w, s.cap, a), doomed)
    ensures Run(s, SerialOp(w, s.cap, a, doomed)).cap == s.cap
  {
    var ops := SerialOp(w, s.cap, a, doomed);
    assert ops != [] ==> ops[..0] == [] && Run(s, ops) == Step(s, ops[0]);
    if Enabled(w, s.cap, a) {
      if a.SelectRows? && a.tid !in doomed {
        ExplainSelect(s.db, w, s.cap, doomed, a.tid);
      } else if a.Commit? {
        ExplainCommit(s.db, w, s.cap, doomed, a.tid);
      } else if a.Finish? {
        ExplainFinish(s.db, w, s.cap, doomed, a.tid);
      } else {
        QuietStep(w, s.cap, a, doomed);
        ExplainQuietStep(s.db, w, Next(w, s.cap, a), doomed);
      }
    }
  }

  lemma {:induction false} TraceExplained(db: Db, cap: nat, trace: seq<Action>, doomed: set<nat>)
    requires cap >= 1
    requires Aborted(Quiet(db), cap, trace) <= doomed && Committed(Quiet(db), cap, trace) !! doomed
    ensures Explains(Run(State(db, cap), Serial(Quiet(db), cap, trace, doomed)).db, After(Quiet(db), cap, trace),
                     doomed)
    ensures Run(State(db, cap), Serial(Quiet(db), cap, trace, doomed)).cap == cap
    decreases |trace|
  {
    if trace != [] {
      var init, a := trace[..|trace| - 1], trace[|trace| - 1];
      var w, ops := After(Quiet(db), cap, init), Serial(Quiet(db), cap, init, doomed);
      TraceExplained(db, cap, init, doomed);
      OpenClaimsHoldDisjointRows(db, cap, init);
      StepExplains(Run(State(db, cap), ops), w, a, doomed);
      RunConcat(State(db, cap), ops, SerialOp(w, cap, a, doomed));
    }
  }

  /**
   * Every interleaving of overlapping claims, submits and ingests, once all claims have ended, leaves
   * exactly the tables of a serial run in which each committed claim is one atomic step that passes over
   * the rows other transactions held, and each aborted transaction never happened.
   */
  lemma InterleavingIsSerial(db: Db, cap: nat, trace: seq<Action>)
    requires cap >= 1
    requires After(Quiet(db), cap, trace).open == map[]
    ensures After(Quiet(db), cap, trace).db
            == Run(State(db, cap), Serial(Quiet(db), cap, trace, Aborted(Quiet(db), cap, trace))).db
  {
    var w, doomed := After(Quiet(db), cap, trace), Aborted(Quiet(db), cap, trace);
    FatesAreExclusive(db, cap, trace);
    TraceExplained(db, cap, trace, doomed);
    var serial := Run(State(db, cap), Serial(Quiet(db), cap, trace, doomed)).db;
    forall h | h in w.db.releases ensures serial.releases[h] == w.db.releases[h] {
      assert serial.releases[h] == Overlay(w, doomed, h);
    }
    assert serial.releases == w.db.releases;
  }

  /**
   * So fencing survives concurrency: from an empty store, in any interleaving whose claims have all
   * ended, the row of a release follows the claims of the serial run, which are numbered 1, 2, 3, ...
   * When no length wraps below zero they hold their leases one after the other, and when the lengths
   * asked for are not mixed no two leases share an instant.
   */
  lemma InterleavingIsFenced(config: int, trace: seq<Action>, h: string)
    requires After(Quiet(Initial(config).db), EffectiveCap(config), trace).open == map[]
    ensures var w0, cap := Quiet(Initial(config).db), EffectiveCap(config);
            var ops := Serial(w0, cap, trace, Aborted(w0, cap, trace));
            && Fencing.RowFollows(State(After(w0, cap, trace).db, cap), h, Fencing.Grants(Initial(config), ops, h))
            && (Fencing.LeasesRunForward(ops) ==>
                  && Fencing.InTokenOrder(Fencing.Grants(Initial(config), ops, h))
                  && Fencing.Exclusive(Fencing.Grants(Initial(config), ops, h)))
            && (forall lengths :: Fencing.RequestsOnly(ops, lengths) && !Fencing.Mixed(lengths) ==>
                  Fencing.Exclusive(Fencing.Grants(Initial(config), ops, h)))
  {
    var w0, cap := Quiet(Initial(config).db), EffectiveCap(config);
    var ops := Serial(w0, cap, trace, Aborted(w0, cap, trace));
    InterleavingIsSerial(Initial(config).db, cap, trace);
    Fencing.RowFollowsItsClaims(config, ops, h);
    if Fencing.LeasesRunForward(ops) {
      Fencing.LeasesExclude(config, ops, h);
    }
    forall lengths | Fencing.RequestsOnly(ops, lengths) && !Fencing.Mixed(lengths)
      ensures Fencing.Exclusive(Fencing.Grants(Initial(config), ops, h))
    {
      Fencing.UnmixedLeasesExclude(config, ops, h, lengths);
    }
  }
}
