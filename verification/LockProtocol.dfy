/**
 * The host's transactions at the grain of their database statements. Any number of authorisations
 * and reversals interleave; each takes the advisory lock of its account's key, works on values it
 * has read, keeps its writes to itself until it commits, and releases the lock on commit. The lock
 * key is an arbitrary function of the account, so two accounts may share a key.
 */
module LockProtocol {
  import opened Common
  import opened Ledger

  datatype Request = Auth(q: AuthRequest) | Rev(v: Reversal)

  /** Where a transaction stands, with the values it has read or written so far. */
  datatype Phase =
    | Fresh
    | CardRead(acct: string, limit: int)
    | Locked(acct: string, limit: int)
    | Funded(acct: string, limit: int)
    | UnderLimit(acct: string, check: nat)
    | Debited(acct: string, pending: Account, check: nat)
    | Inserted(acct: string, pending: Account, check: nat, stamp: nat)
    | Refusing(held: Option<string>, code: Code, check: nat)
    | RevLocked(acct: string)
    | RevCredited(acct: string, pending: Account)
    | RevFlipped(acct: string, pending: Account, hits: set<nat>)
    | RevInserted(acct: string, pending: Account, hits: set<nat>, stamp: nat)
    | RevAborting(acct: string)
    | Finished(reply: Reply)

  datatype Proc = Proc(req: Request, phase: Phase)

  /** One committed transaction: which process, the operation it amounts to, and its reply. */
  datatype Entry = Entry(proc: nat, op: Op, reply: Reply)

  datatype Sys = Sys(db: Db, clock: nat, locks: map<int, nat>, procs: seq<Proc>, log: seq<Entry>)

  datatype Step = Arrive(req: Request) | Tick(ms: nat) | Advance(i: nat)

  type Key = string -> int

  function Hits(rows: seq<Row>, stan: string): set<nat> { set k: nat | k < |rows| && Hit(rows[k], stan) }

  function FlipAt(rows: seq<Row>, hits: set<nat>): (f: seq<Row>)
    ensures |f| == |rows|
    ensures forall i :: 0 <= i < |rows| ==> f[i] == if i in hits then rows[i].(status := Reversed) else rows[i]
  {
    seq(|rows|, i requires 0 <= i < |rows| => if i in hits then rows[i].(status := Reversed) else rows[i])
  }

  /** The account whose lock a phase holds. */
  function Holds(p: Phase): Option<string> {
    match p
    case Locked(acct, _) => Some(acct)
    case Funded(acct, _) => Some(acct)
    case UnderLimit(acct, _) => Some(acct)
    case Debited(acct, _, _) => Some(acct)
    case Inserted(acct, _, _, _) => Some(acct)
    case Refusing(held, _, _) => held
    case RevLocked(acct) => Some(acct)
    case RevCredited(acct, _) => Some(acct)
    case RevFlipped(acct, _, _) => Some(acct)
    case RevInserted(acct, _, _, _) => Some(acct)
    case RevAborting(acct) => Some(acct)
    case _ => None
  }

  /** The account whose lock the next statement of a process waits for. */
  function WaitsFor(p: Proc): Option<string> {
    match p.phase
    case CardRead(acct, _) => Some(acct)
    case Fresh => if p.req.Rev? then Some(p.req.v.accountId) else None
    case _ => None
  }

  function Init(db: Db, clock: nat): Sys { Sys(db, clock, map[], [], []) }

  predicate Enabled(key: Key, s: Sys, step: Step) {
    match step
    case Arrive(_) => true
    case Tick(_) => true
    case Advance(i) =>
      && i < |s.procs|
      && !s.procs[i].phase.Finished?
      && (WaitsFor(s.procs[i]).Some? ==> key(WaitsFor(s.procs[i]).value) !in s.locks)
  }

  function Put(s: Sys, i: nat, phase: Phase): Sys
    requires i < |s.procs|
  {
    s.(procs := s.procs[i := s.procs[i].(phase := phase)])
  }

  function Lock(key: Key, s: Sys, i: nat, acct: string, phase: Phase): Sys
    requires i < |s.procs|
  {
    Put(s, i, phase).(locks := s.locks[key(acct) := i])
  }

  function Release(key: Key, locks: map<int, nat>, held: Option<string>): map<int, nat> {
    if held.Some? then locks - {key(held.value)} else locks
  }

  /** Commit: publish the tables, release the lock, finish with the reply. */
  function Commit(key: Key, s: Sys, i: nat, held: Option<string>, db: Db, op: Op, reply: Reply): Sys
    requires i < |s.procs|
  {
    Put(s, i, Finished(reply)).(
      db := db,
      locks := Release(key, s.locks, held),
      log := s.log + [Entry(i, op, reply)])
  }

  function AdvanceAuth(key: Key, s: Sys, i: nat): Sys
    requires i < |s.procs| && s.procs[i].req.Auth?
  {
    var q := s.procs[i].req.q;
    match s.procs[i].phase
    case Fresh =>
      if !HasAccount(s.db, q.pan) then Put(s, i, Refusing(None, InvalidCard, s.clock))
      else if q.amount > q.cap then Put(s, i, Refusing(None, ExceedsLimit, s.clock))
      else
        var id := s.db.cards[q.pan].accountId;
        Put(s, i, CardRead(id, s.db.accounts[id].dailyLimit))
    case CardRead(acct, limit) => Lock(key, s, i, acct, Locked(acct, limit))
    case Locked(acct, limit) =>
      if acct !in s.db.accounts then Put(s, i, Refusing(Some(acct), NoCardRecord, s.clock))
      else if s.db.accounts[acct].balance < q.amount then
        Put(s, i, Refusing(Some(acct), NotSufficientFunds, s.clock))
      else Put(s, i, Funded(acct, limit))
    case Funded(acct, limit) =>
      if Sum(s.db.rows, Since(acct, StartOfDay(s.clock))) + q.amount > limit then
        Put(s, i, Refusing(Some(acct), ExceedsLimit, s.clock))
      else Put(s, i, UnderLimit(acct, s.clock))
    case UnderLimit(acct, check) =>
      if acct !in s.db.accounts then Put(s, i, Refusing(Some(acct), NoCardRecord, s.clock))
      else Put(s, i, Debited(acct, Debit(s.db.accounts[acct], q.amount), check))
    case Debited(acct, pending, check) => Put(s, i, Inserted(acct, pending, check, s.clock))
    case Inserted(acct, pending, check, stamp) =>
      var row := Row(q.sessionId, q.pan, acct, q.amount, Completed, q.stan, stamp);
      Commit(key, s, i, Some(acct),
             s.db.(accounts := s.db.accounts[acct := pending], rows := s.db.rows + [row]),
             AuthOp(q, check, stamp), Approved(pending.balance))
    case Refusing(held, code, check) =>
      Commit(key, s, i, held, s.db, AuthOp(q, check, check), Declined(code))
    case _ => s
  }

  function AdvanceRev(key: Key, s: Sys, i: nat): Sys
    requires i < |s.procs| && s.procs[i].req.Rev?
  {
    var v := s.procs[i].req.v;
    match s.procs[i].phase
    case Fresh => Lock(key, s, i, v.accountId, RevLocked(v.accountId))
    case RevLocked(acct) =>
      if acct !in s.db.accounts then Put(s, i, RevAborting(acct))
      else Put(s, i, RevCredited(acct, Debit(s.db.accounts[acct], -v.amount)))
    case RevCredited(acct, pending) => Put(s, i, RevFlipped(acct, pending, Hits(s.db.rows, v.stan)))
    case RevFlipped(acct, pending, hits) => Put(s, i, RevInserted(acct, pending, hits, s.clock))
    case RevInserted(acct, pending, hits, stamp) =>
      Commit(key, s, i, Some(acct),
             s.db.(accounts := s.db.accounts[acct := pending],
                   rows := FlipAt(s.db.rows, hits) + [ReversalRow(v, stamp)]),
             RevOp(v, stamp), Undone)
    case RevAborting(acct) => Commit(key, s, i, Some(acct), s.db, RevOp(v, s.clock), Aborted)
    case _ => s
  }

  function Do(key: Key, s: Sys, step: Step): Sys
    requires Enabled(key, s, step)
  {
    match step
    case Arrive(req) => s.(procs := s.procs + [Proc(req, Fresh)])
    case Tick(ms) => s.(clock := s.clock + ms)
    case Advance(i) => if s.procs[i].req.Auth? then AdvanceAuth(key, s, i) else AdvanceRev(key, s, i)
  }

  /** A run: every state follows from the one before by an enabled step. */
  ghost predicate IsRun(key: Key, run: seq<Sys>, steps: seq<Step>) {
    && |run| == |steps| + 1
    && forall k | 0 <= k < |steps| :: Enabled(key, run[k], steps[k]) && run[k + 1] == Do(key, run[k], steps[k])
  }

  // ----- What every state keeps, whatever the trace numbers -----

  /** Lock table and phases agree: a phase holds a lock exactly when the table says so. */
  ghost predicate LocksOk(key: Key, s: Sys) {
    && (forall i | 0 <= i < |s.procs| && Holds(s.procs[i].phase).Some? ::
          var k := key(Holds(s.procs[i].phase).value); k in s.locks && s.locks[k] == i)
    && (forall k | k in s.locks :: HeldBy(key, s.procs, k, s.locks[k]))
  }

  ghost predicate HeldBy(key: Key, procs: seq<Proc>, k: int, i: nat) {
    i < |procs| && Holds(procs[i].phase).Some? && key(Holds(procs[i].phase).value) == k
  }

  /** The operation is the request's, with instants filled in. */
  predicate Realises(op: Op, r: Request) {
    match r
    case Auth(q) => op.AuthOp? && op.q == q
    case Rev(v) => op.RevOp? && op.v == v
  }

  /** The log lists the finished processes, each once, with its own request and reply. */
  ghost predicate LogOk(s: Sys) {
    && (forall k | 0 <= k < |s.log| ::
          && s.log[k].proc < |s.procs|
          && s.procs[s.log[k].proc].phase == Finished(s.log[k].reply)
          && Realises(s.log[k].op, s.procs[s.log[k].proc].req))
    && (forall j, k | 0 <= j < k < |s.log| :: s.log[j].proc != s.log[k].proc)
    && (forall i | 0 <= i < |s.procs| && s.procs[i].phase.Finished? ::
          exists k :: 0 <= k < |s.log| && s.log[k].proc == i)
  }

  /** An authorisation stands on its card's account, and what it has learnt of that account still holds. */
  predicate AuthSound(db: Db, clock: nat, q: AuthRequest, p: Phase) {
    var passed := HasAccount(db, q.pan) && q.amount <= q.cap;
    match p
    case Fresh => true
    case CardRead(acct, limit) => passed && acct == AccountOf(db, q) && limit == db.accounts[acct].dailyLimit
    case Locked(acct, limit) => passed && acct == AccountOf(db, q) && limit == db.accounts[acct].dailyLimit
    case Funded(acct, limit) =>
      && passed && acct == AccountOf(db, q) && limit == db.accounts[acct].dailyLimit
      && db.accounts[acct].balance >= q.amount
    case UnderLimit(acct, check) =>
      passed && acct == AccountOf(db, q) && check <= clock && db.accounts[acct].balance >= q.amount
    case Debited(acct, pending, check) =>
      && passed && acct == AccountOf(db, q) && check <= clock && db.accounts[acct].balance >= q.amount
      && pending == Debit(db.accounts[acct], q.amount)
    case Inserted(acct, pending, check, stamp) =>
      && passed && acct == AccountOf(db, q) && check <= stamp <= clock && db.accounts[acct].balance >= q.amount
      && pending == Debit(db.accounts[acct], q.amount)
    case Refusing(held, code, check) =>
      (held.None? ==> !passed) && (held.Some? ==> passed && held.value == AccountOf(db, q))
    case Finished(_) => true
    case _ => false
  }

  function AccountOf(db: Db, q: AuthRequest): string { if q.pan in db.cards then db.cards[q.pan].accountId else "" }

  predicate RevSound(db: Db, v: Reversal, p: Phase) {
    match p
    case Fresh => true
    case RevLocked(acct) => acct == v.accountId
    case RevCredited(acct, pending) => Credited(db, v, acct, pending)
    case RevFlipped(acct, pending, _) => Credited(db, v, acct, pending)
    case RevInserted(acct, pending, _, _) => Credited(db, v, acct, pending)
    case RevAborting(acct) => acct == v.accountId && acct !in db.accounts
    case Finished(_) => true
    case _ => false
  }

  predicate Credited(db: Db, v: Reversal, acct: string, pending: Account) {
    acct == v.accountId && acct in db.accounts && pending == Debit(db.accounts[acct], -v.amount)
  }

  predicate ProcSound(db: Db, clock: nat, p: Proc) {
    match p.req
    case Auth(q) => AuthSound(db, clock, q, p.phase)
    case Rev(v) => RevSound(db, v, p.phase)
  }

  ghost predicate ProcsSound(s: Sys) { forall i | 0 <= i < |s.procs| :: ProcSound(s.db, s.clock, s.procs[i]) }

  ghost predicate Sound(key: Key, s: Sys) { LocksOk(key, s) && LogOk(s) && ProcsSound(s) }

  /** No operation changes cards, the set of accounts, or a daily limit. */
  ghost predicate SameShape(a: Db, b: Db) {
    && a.cards == b.cards
    && a.accounts.Keys == b.accounts.Keys
    && forall id | id in a.accounts :: a.accounts[id].dailyLimit == b.accounts[id].dailyLimit
  }

  /** Only accounts under the lock key `k` have changed. */
  ghost predicate Confined(key: Key, k: int, db: Db, db': Db) {
    SameShape(db, db') && forall b | b in db.accounts && key(b) != k :: db'.accounts[b] == db.accounts[b]
  }

  // ----- A step moves one process on, or commits it -----

  /** One process moves on, and takes its lock if the new phase holds one and the old did not. */
  predicate Moves(key: Key, s: Sys, s': Sys, i: nat, phase: Phase)
    requires i < |s.procs|
  {
    || (s' == Put(s, i, phase) && Holds(phase) == Holds(s.procs[i].phase))
    || (Holds(s.procs[i].phase).None? && Holds(phase).Some? && key(Holds(phase).value) !in s.locks
        && s' == Lock(key, s, i, Holds(phase).value, phase))
  }

  /** One process commits, and publishes nothing outside what its lock covers. */
  ghost predicate Commits(key: Key, s: Sys, s': Sys, i: nat, op: Op, reply: Reply)
    requires i < |s.procs|
  {
    var held := Holds(s.procs[i].phase);
    && s' == Commit(key, s, i, held, s'.db, op, reply)
    && Realises(op, s.procs[i].req)
    && if held.None? then s'.db == s.db else Confined(key, key(held.value), s.db, s'.db)
  }

  /** The operation and reply with which a process in its last phase commits. */
  function LastOp(s: Sys, i: nat): Op
    requires i < |s.procs|
  {
    match s.procs[i].req
    case Auth(q) =>
      (match s.procs[i].phase
       case Inserted(_, _, check, stamp) => AuthOp(q, check, stamp)
       case Refusing(_, _, check) => AuthOp(q, check, check)
       case _ => AuthOp(q, 0, 0))
    case Rev(v) =>
      (match s.procs[i].phase
       case RevInserted(_, _, _, stamp) => RevOp(v, stamp)
       case _ => RevOp(v, s.clock))
  }

  function LastReply(p: Phase): Reply {
    match p
    case Inserted(_, pending, _, _) => Approved(pending.balance)
    case Refusing(_, code, _) => Declined(code)
    case RevInserted(_, _, _, _) => Undone
    case _ => Aborted
  }

  predicate LastPhase(p: Phase) { p.Inserted? || p.Refusing? || p.RevInserted? || p.RevAborting? }

  /** How many statements a transaction still has to run, at most. */
  function Remaining(p: Phase): nat {
    match p
    case Fresh => 8
    case CardRead(_, _) => 7
    case Locked(_, _) => 6
    case Funded(_, _) => 5
    case UnderLimit(_, _) => 4
    case Debited(_, _, _) => 3
    case Inserted(_, _, _, _) => 1
    case Refusing(_, _, _) => 1
    case RevLocked(_) => 4
    case RevCredited(_, _) => 3
    case RevFlipped(_, _, _) => 2
    case RevInserted(_, _, _, _) => 1
    case RevAborting(_) => 1
    case Finished(_) => 0
  }

  /** What a statement that is not the last does to its process. */
  ghost predicate MovesOn(key: Key, s: Sys, s': Sys, i: nat)
    requires i < |s.procs|
  {
    && i < |s'.procs| && !s'.procs[i].phase.Finished?
    && ProcSound(s.db, s.clock, s.procs[i].(phase := s'.procs[i].phase))
    && Moves(key, s, s', i, s'.procs[i].phase)
    && Remaining(s'.procs[i].phase) < Remaining(s.procs[i].phase)
  }

  lemma AuthReads(key: Key, s: Sys, i: nat)
    requires Enabled(key, s, Advance(i)) && s.procs[i].req.Auth? && ProcSound(s.db, s.clock, s.procs[i])
    requires s.procs[i].phase.Fresh? || s.procs[i].phase.CardRead?
    ensures MovesOn(key, s, AdvanceAuth(key, s, i), i)
  {
  }

  lemma AuthMoves(key: Key, s: Sys, i: nat)
    requires Enabled(key, s, Advance(i)) && s.procs[i].req.Auth? && ProcSound(s.db, s.clock, s.procs[i])
    requires !LastPhase(s.procs[i].phase)
    ensures MovesOn(key, s, AdvanceAuth(key, s, i), i)
  {
    if s.procs[i].phase.Fresh? || s.procs[i].phase.CardRead? {
      AuthReads(key, s, i);
    }
  }

  lemma RevMoves(key: Key, s: Sys, i: nat)
    requires Enabled(key, s, Advance(i)) && s.procs[i].req.Rev? && ProcSound(s.db, s.clock, s.procs[i])
    requires !LastPhase(s.procs[i].phase)
    ensures MovesOn(key, s, AdvanceRev(key, s, i), i)
  {
  }

  lemma AuthCommits(key: Key, s: Sys, i: nat)
    requires Enabled(key, s, Advance(i)) && s.procs[i].req.Auth? && ProcSound(s.db, s.clock, s.procs[i])
    requires LastPhase(s.procs[i].phase)
    ensures Commits(key, s, AdvanceAuth(key, s, i), i, LastOp(s, i), LastReply(s.procs[i].phase))
  {
  }

  lemma RevCommits(key: Key, s: Sys, i: nat)
    requires Enabled(key, s, Advance(i)) && s.procs[i].req.Rev? && ProcSound(s.db, s.clock, s.procs[i])
    requires LastPhase(s.procs[i].phase)
    ensures Commits(key, s, AdvanceRev(key, s, i), i, LastOp(s, i), LastReply(s.procs[i].phase))
  {
  }

  /** The tables after a reversal that flips these rows. */
  function Reversing(db: Db, hits: set<nat>, v: Reversal, at: nat): Db
    requires v.accountId in db.accounts
  {
    db.(accounts := db.accounts[v.accountId := Debit(db.accounts[v.accountId], -v.amount)],
        rows := FlipAt(db.rows, hits) + [ReversalRow(v, at)])
  }

  lemma RevPublishes(key: Key, s: Sys, i: nat)
    requires i < |s.procs| && s.procs[i].req.Rev? && s.procs[i].phase.RevInserted?
    requires ProcSound(s.db, s.clock, s.procs[i])
    ensures s.procs[i].req.v.accountId in s.db.accounts && s.procs[i].phase.acct == s.procs[i].req.v.accountId
    ensures AdvanceRev(key, s, i).db == Reversing(s.db, s.procs[i].phase.hits, s.procs[i].req.v, s.procs[i].phase.stamp)
  {
  }

  /** Every statement moves its process on; the last one commits it. */
  lemma Advances(key: Key, s: Sys, i: nat)
    requires Enabled(key, s, Advance(i)) && ProcSound(s.db, s.clock, s.procs[i])
    ensures var s' := Do(key, s, Advance(i));
            if LastPhase(s.procs[i].phase) then Commits(key, s, s', i, LastOp(s, i), LastReply(s.procs[i].phase))
            else MovesOn(key, s, s', i)
  {
    if s.procs[i].req.Auth? {
      if LastPhase(s.procs[i].phase) {
        AuthCommits(key, s, i);
      } else {
        AuthMoves(key, s, i);
      }
    } else if LastPhase(s.procs[i].phase) {
      RevCommits(key, s, i);
    } else {
      RevMoves(key, s, i);
    }
  }

  // ----- Soundness is kept -----

  lemma LogOkSnoc(s: Sys, s': Sys, i: nat, op: Op, reply: Reply)
    requires LogOk(s) && i < |s.procs| && !s.procs[i].phase.Finished? && Realises(op, s.procs[i].req)
    requires s'.procs == s.procs[i := s.procs[i].(phase := Finished(reply))]
    requires s'.log == s.log + [Entry(i, op, reply)]
    ensures LogOk(s')
  {
    forall m | 0 <= m < |s'.procs| && s'.procs[m].phase.Finished?
      ensures exists k :: 0 <= k < |s'.log| && s'.log[k].proc == m
    {
      if m == i {
        assert s'.log[|s.log|].proc == m;
      } else {
        var k :| 0 <= k < |s.log| && s.log[k].proc == m;
        assert s'.log[k] == s.log[k];
      }
    }
  }

  lemma LogOkPut(s: Sys, s': Sys, i: nat, phase: Phase)
    requires LogOk(s) && i < |s.procs| && !s.procs[i].phase.Finished? && !phase.Finished?
    requires s'.procs == s.procs[i := s.procs[i].(phase := phase)] && s'.log == s.log
    ensures LogOk(s')
  {
    forall m | 0 <= m < |s'.procs| && s'.procs[m].phase.Finished?
      ensures exists k :: 0 <= k < |s'.log| && s'.log[k].proc == m
    {
      assert s'.procs[m] == s.procs[m];
    }
  }

  lemma LogOkArrive(s: Sys, s': Sys, p: Proc)
    requires LogOk(s) && s'.procs == s.procs + [p] && s'.log == s.log && !p.phase.Finished?
    ensures LogOk(s')
  {
    forall m | 0 <= m < |s'.procs| && s'.procs[m].phase.Finished?
      ensures exists k :: 0 <= k < |s'.log| && s'.log[k].proc == m
    {
      assert m < |s.procs| && s'.procs[m] == s.procs[m];
    }
  }

  lemma LocksRelease(key: Key, s: Sys, s': Sys, i: nat, reply: Reply)
    requires LocksOk(key, s) && i < |s.procs|
    requires s'.procs == s.procs[i := s.procs[i].(phase := Finished(reply))]
    requires s'.locks == Release(key, s.locks, Holds(s.procs[i].phase))
    ensures LocksOk(key, s')
  {
  }

  lemma LocksPut(key: Key, s: Sys, s': Sys, i: nat, phase: Phase)
    requires LocksOk(key, s) && i < |s.procs| && Moves(key, s, s', i, phase)
    ensures LocksOk(key, s')
  {
  }

  lemma LocksArrive(key: Key, s: Sys, s': Sys, req: Request)
    requires LocksOk(key, s) && s'.procs == s.procs + [Proc(req, Fresh)] && s'.locks == s.locks
    ensures LocksOk(key, s')
  {
    forall k | k in s'.locks ensures HeldBy(key, s'.procs, k, s'.locks[k]) {
      assert HeldBy(key, s.procs, k, s.locks[k]);
    }
  }

  /** What a process knows of its own account survives a commit under another key. */
  lemma ProcSoundFrame(key: Key, k: int, db: Db, db': Db, clock: nat, p: Proc)
    requires ProcSound(db, clock, p) && Confined(key, k, db, db')
    requires Holds(p.phase).Some? ==> key(Holds(p.phase).value) != k
    ensures ProcSound(db', clock, p)
  {
  }

  /** Two processes never hold locks under one key. */
  lemma OtherKey(key: Key, s: Sys, i: nat, j: nat)
    requires LocksOk(key, s) && i < |s.procs| && j < |s.procs| && i != j
    requires Holds(s.procs[i].phase).Some? && Holds(s.procs[j].phase).Some?
    ensures key(Holds(s.procs[i].phase).value) != key(Holds(s.procs[j].phase).value)
  {
  }

  lemma ProcsSoundCommit(key: Key, s: Sys, s': Sys, i: nat, op: Op, reply: Reply)
    requires Sound(key, s) && i < |s.procs| && Commits(key, s, s', i, op, reply)
    ensures ProcsSound(s')
  {
    var held := Holds(s.procs[i].phase);
    forall j | 0 <= j < |s'.procs| ensures ProcSound(s'.db, s'.clock, s'.procs[j]) {
      assert ProcSound(s.db, s.clock, s.procs[j]);
      if j != i && held.Some? {
        if Holds(s.procs[j].phase).Some? {
          OtherKey(key, s, i, j);
        }
        ProcSoundFrame(key, key(held.value), s.db, s'.db, s.clock, s.procs[j]);
      }
    }
  }

  lemma CommitKeepsSound(key: Key, s: Sys, s': Sys, i: nat, op: Op, reply: Reply)
    requires Sound(key, s) && i < |s.procs| && !s.procs[i].phase.Finished? && Commits(key, s, s', i, op, reply)
    ensures Sound(key, s')
  {
    LogOkSnoc(s, s', i, op, reply);
    LocksRelease(key, s, s', i, reply);
    ProcsSoundCommit(key, s, s', i, op, reply);
  }

  lemma MoveKeepsSound(key: Key, s: Sys, s': Sys, i: nat, phase: Phase)
    requires Sound(key, s) && i < |s.procs| && !s.procs[i].phase.Finished? && !phase.Finished?
    requires ProcSound(s.db, s.clock, s.procs[i].(phase := phase)) && Moves(key, s, s', i, phase)
    ensures Sound(key, s')
  {
    LocksPut(key, s, s', i, phase);
    LogOkPut(s, s', i, phase);
    forall j | 0 <= j < |s'.procs| ensures ProcSound(s'.db, s'.clock, s'.procs[j]) {
      assert ProcSound(s.db, s.clock, s.procs[j]);
    }
  }

  lemma ArriveKeepsSound(key: Key, s: Sys, req: Request)
    requires Sound(key, s)
    ensures Sound(key, Do(key, s, Arrive(req)))
  {
    var s' := Do(key, s, Arrive(req));
    LogOkArrive(s, s', Proc(req, Fresh));
    LocksArrive(key, s, s', req);
    forall j | 0 <= j < |s'.procs| ensures ProcSound(s'.db, s'.clock, s'.procs[j]) {
      assert j < |s.procs| ==> ProcSound(s.db, s.clock, s.procs[j]);
    }
  }

  lemma TickKeepsSound(key: Key, s: Sys, ms: nat)
    requires Sound(key, s)
    ensures Sound(key, Do(key, s, Tick(ms)))
  {
    var s' := Do(key, s, Tick(ms));
    forall j | 0 <= j < |s'.procs| ensures ProcSound(s'.db, s'.clock, s'.procs[j]) {
      assert ProcSound(s.db, s.clock, s.procs[j]);
    }
  }

  lemma StepKeepsSound(key: Key, s: Sys, step: Step)
    requires Sound(key, s) && Enabled(key, s, step)
    ensures Sound(key, Do(key, s, step)) && SameShape(s.db, Do(key, s, step).db)
  {
    match step
    case Arrive(req) => ArriveKeepsSound(key, s, req);
    case Tick(ms) => TickKeepsSound(key, s, ms);
    case Advance(i) =>
      var s' := Do(key, s, step);
      assert ProcSound(s.db, s.clock, s.procs[i]);
      Advances(key, s, i);
      if LastPhase(s.procs[i].phase) {
        CommitKeepsSound(key, s, s', i, LastOp(s, i), LastReply(s.procs[i].phase));
      } else {
        MoveKeepsSound(key, s, s', i, s'.procs[i].phase);
      }
  }

  lemma {:induction false} RunSound(key: Key, start: Db, clock: nat, run: seq<Sys>, steps: seq<Step>, k: nat)
    requires IsRun(key, run, steps) && run[0] == Init(start, clock) && k < |run|
    ensures Sound(key, run[k]) && SameShape(start, run[k].db)
  {
    if k > 0 {
      RunSound(key, start, clock, run, steps, k - 1);
      StepKeepsSound(key, run[k - 1], steps[k - 1]);
    }
  }

  // ----- Requests come from arrivals -----

  /** A step keeps every request; a new one comes with an arrival. */
  lemma RequestKept(key: Key, s: Sys, step: Step, i: nat)
    requires Enabled(key, s, step) && i < |Do(key, s, step).procs|
    ensures i < |s.procs| ==> Do(key, s, step).procs[i].req == s.procs[i].req
    ensures i >= |s.procs| ==> step == Arrive(Do(key, s, step).procs[i].req)
  {
  }

  lemma {:induction false} ProcsArrived(
    key: Key, start: Db, clock: nat, run: seq<Sys>, steps: seq<Step>, k: nat, i: nat)
    returns (n: nat)
    requires IsRun(key, run, steps) && run[0] == Init(start, clock) && k < |run| && i < |run[k].procs|
    ensures n < k && steps[n] == Arrive(run[k].procs[i].req)
  {
    RequestKept(key, run[k - 1], steps[k - 1], i);
    if i >= |run[k - 1].procs| {
      n := k - 1;
    } else {
      n := ProcsArrived(key, start, clock, run, steps, k - 1, i);
    }
  }

  // ----- No deadlock -----

  /** The process that runs next: the holder of the lock that `i` waits for, else `i` itself. */
  function Runnable(key: Key, s: Sys, i: nat): nat
    requires i < |s.procs|
  {
    var w := WaitsFor(s.procs[i]);
    if w.Some? && key(w.value) in s.locks then s.locks[key(w.value)] else i
  }

  lemma HoldersRun(key: Key, s: Sys, i: nat)
    requires LocksOk(key, s) && i < |s.procs| && !s.procs[i].phase.Finished?
    ensures Enabled(key, s, Advance(Runnable(key, s, i)))
  {
    var w := WaitsFor(s.procs[i]);
    if w.Some? && key(w.value) in s.locks {
      assert HeldBy(key, s.procs, key(w.value), s.locks[key(w.value)]);
    }
  }

  /**
   * No deadlock: in every reachable state with an unfinished request, under any lock key and whatever trace
   * numbers are used, some transaction can run its next statement, which brings it nearer its commit.
   */
  lemma NoDeadlock(key: Key, start: Db, clock: nat, run: seq<Sys>, steps: seq<Step>, k: nat, i: nat)
    returns (j: nat)
    requires IsRun(key, run, steps) && run[0] == Init(start, clock) && k < |run|
    requires i < |run[k].procs| && !run[k].procs[i].phase.Finished?
    ensures Enabled(key, run[k], Advance(j))
    ensures Remaining(Do(key, run[k], Advance(j)).procs[j].phase) < Remaining(run[k].procs[j].phase)
  {
    RunSound(key, start, clock, run, steps, k);
    j := Runnable(key, run[k], i);
    HoldersRun(key, run[k], i);
    assert ProcSound(run[k].db, run[k].clock, run[k].procs[j]);
    Advances(key, run[k], j);
  }
}
