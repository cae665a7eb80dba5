/** What a sweep does over its whole course, and how long a session has to be silent to be dropped. */
module ServerSweeps {
  import opened Common
  import opened Sessions
  import opened ServerProtocol
  import opened ServerMemory
  import opened ServerIndexes

  /** The time a sweep goes by, and the entries it has yet to look at. */
  function Sweeping(t: Task): Option<(int, set<nat>)> {
    match t
    case Scan(now, left) => Some((now, left))
    case Unlinked(now, left, _) => Some((now, left))
    case Freed(now, left, _) => Some((now, left))
    case _ => None
  }

  predicate ReadsClock(s: System, l: Label) {
    l.Work? && l.t < |s.th| && s.th[l.t].task.Sweep?
  }

  /** The thread sweeps in every state of the run but perhaps the last. */
  predicate Throughout(s: System, ls: seq<Label>, t: Tid)
    requires Legal(s, ls)
    decreases |ls|
  {
    ls == [] || (t < |s.th| && Sweeping(s.th[t].task).Some? && Throughout(Apply(s, ls[0]), ls[1..], t))
  }

  // ----- Who goes and who stays

  /** The entries that the sweep has yet to look at and will drop. */
  function Doomed(s: Server, task: Task): (ks: set<nat>)
    ensures ks <= s.id.Keys
  {
    match Sweeping(task)
    case None => {}
    case Some((now, left)) => set k | k in s.id && k in left && Expired(Deref(s, s.id[k]), now)
  }

  /** The entries that will be there when the sweep is over, and what they lead to. */
  function Survivors(s: Server, task: Task): map<nat, (Ref, Client)> {
    map k | k in s.id && k !in Doomed(s, task) :: (s.id[k], Deref(s, s.id[k]))
  }

  /** Nobody else touches the index or a session in it while a sweep is under way. */
  lemma IndexQuiet(s: System, l: Label, t: Tid)
    requires MemInv(s) && Enabled(s, l) && t < |s.th| && Sweeping(s.th[t].task).Some? && (l.Tick? || l.t != t)
    ensures var s' := Apply(s, l);
      && s'.srv.id == s.srv.id
      && (forall k :: k in s.srv.id ==> Deref(s'.srv, s.srv.id[k]) == Deref(s.srv, s.srv.id[k]))
  {
    if l.Work? {
      assert Shape(s.th[t]) && Shape(s.th[l.t]);
      assert !Clash(StageOf(s.th[t], Dict), StageOf(s.th[l.t], Dict));
      assert forall k :: k in s.srv.id ==> s.srv.id[k] < s.next;
    }
  }

  /** A step of the sweep drops the entry it stands at or nothing. */
  lemma DoomedOwn(s: System, l: Label)
    requires MemInv(s) && Enabled(s, l) && l.Work? && Sweeping(s.th[l.t].task).Some?
    ensures var s' := Apply(s, l);
      var gone := if Drops(s, l, l.id) then {l.id} else {};
      && gone <= Doomed(s.srv, s.th[l.t].task)
      && Doomed(s'.srv, s'.th[l.t].task) == Doomed(s.srv, s.th[l.t].task) - gone
      && s'.srv.id == s.srv.id - gone
      && (forall k :: k in s'.srv.id ==> Deref(s'.srv, s.srv.id[k]) == Deref(s.srv, s.srv.id[k]))
  {
    match s.th[l.t].task {
      case Scan(now, left) =>
      case Unlinked(now, left, r) =>
      case Freed(now, left, r) =>
        assert Private(s.th[l.t].task) == Some(r) && !Indexed(s.srv, r);
    }
  }

  lemma SameSurvivors(a: Server, x: Task, b: Server, y: Task, gone: set<nat>)
    requires gone <= Doomed(a, x) && Doomed(b, y) == Doomed(a, x) - gone && b.id == a.id - gone
    requires forall k :: k in b.id ==> Deref(b, a.id[k]) == Deref(a, a.id[k])
    ensures Survivors(b, y) == Survivors(a, x)
  {
  }

  lemma SurvivorsStep(s: System, l: Label, t: Tid)
    requires MemInv(s) && Enabled(s, l) && t < |s.th| && Sweeping(s.th[t].task).Some?
    ensures t < |Apply(s, l).th|
    ensures Survivors(Apply(s, l).srv, Apply(s, l).th[t].task) == Survivors(s.srv, s.th[t].task)
  {
    if l.Work? && l.t == t {
      DoomedOwn(s, l);
      var gone := if Drops(s, l, l.id) then {l.id} else {};
      SameSurvivors(s.srv, s.th[t].task, Apply(s, l).srv, Apply(s, l).th[t].task, gone);
    } else if l.Tick? || l.t != t {
      IndexQuiet(s, l, t);
      SameSurvivors(s.srv, s.th[t].task, Apply(s, l).srv, s.th[t].task, {});
    }
  }

  lemma {:induction false} SurvivorsRun(s: System, ls: seq<Label>, t: Tid)
    requires MemInv(s) && Legal(s, ls) && Throughout(s, ls, t) && t < |s.th|
    ensures var e := Exec(s, ls);
      t < |e.th| && Survivors(e.srv, e.th[t].task) == Survivors(s.srv, s.th[t].task)
    decreases |ls|
  {
    if ls != [] {
      SurvivorsStep(s, ls[0], t);
      MemStep(s, ls[0]);
      SurvivorsRun(Apply(s, ls[0]), ls[1..], t);
    }
  }

  // ----- What is done to those that go

  /** Each session that goes is taken out of the indexes, gives its address back and is deleted. */
  datatype Phase = Unlinking | Returning | Deleting

  function SessionsAt(s: Server, ks: set<nat>): set<Ref>
    requires ks <= s.id.Keys
  {
    set k | k in ks :: s.id[k]
  }

  /** The sessions that have this phase before them. */
  function Due(s: Server, task: Task, phase: Phase): set<Ref> {
    SessionsAt(s, Doomed(s, task)) +
    match task
    case Unlinked(_, _, r) => if phase.Unlinking? then {} else {r}
    case Freed(_, _, r) => if phase.Deleting? then {r} else {}
    case _ => {}
  }

  /** The session that this step of the sweep takes through the phase. */
  function Subject(s: System, l: Label, t: Tid, phase: Phase): Option<Ref> {
    if !l.Work? || l.t != t || t >= |s.th| then None
    else
      match s.th[t].task
      case Scan(now, left) => if phase.Unlinking? && Stale(s.srv, l.id, now, left) then Some(s.srv.id[l.id]) else None
      case Unlinked(_, _, r) => if phase.Returning? then Some(r) else None
      case Freed(_, _, r) => if phase.Deleting? then Some(r) else None
      case _ => None
  }

  /** What a phase does, and that it does nothing else. */
  predicate Proper(phase: Phase, r: Ref, before: Server, after: Server) {
    r in before.clients &&
    match phase
    case Unlinking =>
      && r in before.id.Values && after.id == before.id - {before.clients[r].identity}
      && after == before.(id := after.id, mac := before.mac - {before.clients[r].mac})
    case Returning => after == before.(pool := before.pool.(free := before.pool.free + [before.clients[r].ip]))
    case Deleting => r !in after.clients && after == before.(clients := before.clients - {r})
  }

  lemma OneLess(s: Server, ks: set<nat>, k: nat)
    requires KeysAgree(s) && ks <= s.id.Keys && k in ks
    ensures SessionsAt(s, ks - {k}) == SessionsAt(s, ks) - {s.id[k]}
  {
    assert forall j :: j in ks && s.id[j] == s.id[k] ==> j == k;
  }

  lemma SameSessions(a: Server, b: Server, ks: set<nat>)
    requires ks <= b.id.Keys && forall k :: k in b.id ==> k in a.id && a.id[k] == b.id[k]
    ensures SessionsAt(b, ks) == SessionsAt(a, ks)
  {
  }

  lemma DueOwn(s: System, l: Label, phase: Phase)
    requires MemInv(s) && Enabled(s, l) && l.Work? && Sweeping(s.th[l.t].task).Some?
    ensures var due, subject := Due(s.srv, s.th[l.t].task, phase), Subject(s, l, l.t, phase);
      && Due(Apply(s, l).srv, Apply(s, l).th[l.t].task, phase) == due - (if subject.Some? then {subject.value} else {})
      && (subject.Some? ==> subject.value in due)
  {
    var s', task := Apply(s, l), s.th[l.t].task;
    DoomedOwn(s, l);
    SameSessions(s.srv, s'.srv, Doomed(s'.srv, s'.th[l.t].task));
    if Drops(s, l, l.id) {
      OneLess(s.srv, Doomed(s.srv, task), l.id);
    }
    if Private(task).Some? {
      assert !Indexed(s.srv, Private(task).value);
      assert Private(task).value !in SessionsAt(s.srv, Doomed(s.srv, task));
    }
  }

  lemma SubjectIsProper(s: System, l: Label, phase: Phase)
    requires MemInv(s) && Enabled(s, l) && l.Work? && Subject(s, l, l.t, phase).Some?
    ensures Proper(phase, Subject(s, l, l.t, phase).value, s.srv, Apply(s, l).srv)
  {
    var task := s.th[l.t].task;
    assert Private(task).Some? ==> Private(task).value in s.srv.clients;
    assert l.id in s.srv.id ==> s.srv.id[l.id] in s.srv.id.Values;
  }

  lemma DueStep(s: System, l: Label, t: Tid, phase: Phase)
    requires MemInv(s) && Enabled(s, l) && t < |s.th| && Sweeping(s.th[t].task).Some?
    ensures t < |Apply(s, l).th|
    ensures var due, subject := Due(s.srv, s.th[t].task, phase), Subject(s, l, t, phase);
      && Due(Apply(s, l).srv, Apply(s, l).th[t].task, phase) == due - (if subject.Some? then {subject.value} else {})
      && (subject.Some? ==> subject.value in due && Proper(phase, subject.value, s.srv, Apply(s, l).srv))
  {
    if l.Work? && l.t == t {
      DueOwn(s, l, phase);
      if Subject(s, l, t, phase).Some? {
        SubjectIsProper(s, l, phase);
      }
    } else if l.Tick? || l.t != t {
      IndexQuiet(s, l, t);
      assert Doomed(Apply(s, l).srv, s.th[t].task) == Doomed(s.srv, s.th[t].task);
    }
  }

  /** One phase of one removal: whose, and the state before and after. */
  datatype Removal = Removal(ref: Ref, before: Server, after: Server)

  function Removals(s: System, ls: seq<Label>, t: Tid, phase: Phase): seq<Removal>
    requires Legal(s, ls)
    decreases |ls|
  {
    if ls == [] then []
    else
      var rest := Removals(Apply(s, ls[0]), ls[1..], t, phase);
      var subject := Subject(s, ls[0], t, phase);
      if subject.None? then rest else [Removal(subject.value, s.srv, Apply(s, ls[0]).srv)] + rest
  }

  function Refs(rs: seq<Removal>): (refs: seq<Ref>)
    ensures |refs| == |rs|
  {
    seq(|rs|, i requires 0 <= i < |rs| => rs[i].ref)
  }

  /** Of the sessions `start`, those in `rs` went through the phase, each once and properly; `left` are to come. */
  ghost predicate Accounts(start: set<Ref>, rs: seq<Removal>, left: set<Ref>, phase: Phase) {
    && Distinct(Refs(rs))
    && (forall r :: r in start <==> r in Refs(rs) || r in left)
    && (forall r :: r in Refs(rs) ==> r !in left)
    && (forall x :: x in rs ==> Proper(phase, x.ref, x.before, x.after))
  }

  lemma OneMore(start: set<Ref>, x: Removal, rs: seq<Removal>, left: set<Ref>, phase: Phase)
    requires x.ref in start && Proper(phase, x.ref, x.before, x.after)
    requires Accounts(start - {x.ref}, rs, left, phase)
    ensures Accounts(start, [x] + rs, left, phase)
  {
    assert Refs([x] + rs) == [x.ref] + Refs(rs);
    assert x.ref !in Refs(rs);
  }

  lemma {:induction false} DueRun(s: System, ls: seq<Label>, t: Tid, phase: Phase)
    requires MemInv(s) && Legal(s, ls) && Throughout(s, ls, t) && t < |s.th|
    ensures var e := Exec(s, ls);
      t < |e.th| &&
      Accounts(Due(s.srv, s.th[t].task, phase), Removals(s, ls, t, phase), Due(e.srv, e.th[t].task, phase), phase)
    decreases |ls|
  {
    if ls != [] {
      var s', e := Apply(s, ls[0]), Exec(s, ls);
      DueStep(s, ls[0], t, phase);
      MemStep(s, ls[0]);
      DueRun(s', ls[1..], t, phase);
      var subject := Subject(s, ls[0], t, phase);
      if subject.Some? {
        OneMore(Due(s.srv, s.th[t].task, phase), Removal(subject.value, s.srv, s'.srv),
                Removals(s', ls[1..], t, phase), Due(e.srv, e.th[t].task, phase), phase);
      }
    }
  }

  // ----- A whole sweep

  /** What was in the index at the start but for the sessions that were expired then. */
  function Unexpired(s: Server, now: int): map<nat, (Ref, Client)> {
    map k | k in s.id && now - Deref(s, s.id[k]).alive < 45 :: (s.id[k], Deref(s, s.id[k]))
  }

  function ExpiredAt(s: Server, now: int): set<Ref> {
    set k | k in s.id && now - Deref(s, s.id[k]).alive >= 45 :: s.id[k]
  }

  function Contents(s: Server): map<nat, (Ref, Client)> {
    map k | k in s.id :: (s.id[k], Deref(s, s.id[k]))
  }

  lemma SweepOpens(s: System, l: Label, phase: Phase)
    requires MemInv(s) && Enabled(s, l) && ReadsClock(s, l)
    ensures var s' := Apply(s, l);
      && Due(s'.srv, s'.th[l.t].task, phase) == ExpiredAt(s.srv, s.clock)
      && Survivors(s'.srv, s'.th[l.t].task) == Unexpired(s.srv, s.clock)
  {
  }

  lemma SweepCloses(s: Server, task: Task, phase: Phase)
    requires Sweeping(task).None?
    ensures Due(s, task, phase) == {} && Survivors(s, task) == Contents(s)
  {
  }

  /**
    From any reachable state in which a sweep reads its clock, over any run of all
    threads up to some point of the sweep: no session goes through a phase twice,
    those that did and those that will are together exactly the ones expired at
    the start, and each phase did its work and no other.  When the sweep leaves,
    the identity index is what it was at the start but for exactly the sessions
    then silent for 45 seconds or more, each of them was unlinked, had its address
    returned and was deleted once, and the others are as they were.
  */
  lemma SweepExact(n: nat, lower: nat, upper: nat, clock: int, config: Config, before: seq<Label>,
                   l: Label, ls: seq<Label>, phase: Phase)
    requires Legal(Start(n, lower, upper, clock, config), before)
    requires var s := Exec(Start(n, lower, upper, clock, config), before);
      Enabled(s, l) && ReadsClock(s, l) && Legal(Apply(s, l), ls) && Throughout(Apply(s, l), ls, l.t)
    ensures var s := Exec(Start(n, lower, upper, clock, config), before);
      var rs, e := Removals(Apply(s, l), ls, l.t, phase), Exec(Apply(s, l), ls);
      && l.t < |e.th|
      && Accounts(ExpiredAt(s.srv, s.clock), rs, Due(e.srv, e.th[l.t].task, phase), phase)
      && (e.th[l.t].task.Leave? ==>
            && Contents(e.srv) == Unexpired(s.srv, s.clock)
            && (set r | r in Refs(rs)) == ExpiredAt(s.srv, s.clock))
  {
    MemStart(n, lower, upper, clock, config);
    MemRun(Start(n, lower, upper, clock, config), before);
    var s := Exec(Start(n, lower, upper, clock, config), before);
    var s' := Apply(s, l);
    MemStep(s, l);
    SurvivorsRun(s', ls, l.t);
    DueRun(s', ls, l.t, phase);
    SweepOpens(s, l, phase);
    var e := Exec(s', ls);
    if e.th[l.t].task.Leave? {
      SweepCloses(e.srv, e.th[l.t].task, phase);
    }
  }

  // ----- When a session was heard

  /** The step starts the session or handles a heartbeat of it. */
  predicate Hears(s: System, l: Label, r: Ref) {
    l.Work? && l.t < |s.th| &&
    ((s.th[l.t].task.Attach? && s.next == r) || (s.th[l.t].task.BeatAt? && s.th[l.t].task.ref == r))
  }

  /** The clock at the last such step of the run, if there is one. */
  function LastHeard(s: System, ls: seq<Label>, r: Ref): Option<int>
    requires Legal(s, ls)
    decreases |ls|
  {
    if ls == [] then None
    else
      var later := LastHeard(Apply(s, ls[0]), ls[1..], r);
      if later.None? && Hears(s, ls[0], r) then Some(s.clock) else later
  }

  lemma AliveStep(s: System, l: Label, r: Ref)
    requires MemInv(s) && Enabled(s, l) && r in Apply(s, l).srv.clients
    ensures if Hears(s, l, r) then Apply(s, l).srv.clients[r].alive == s.clock
            else r in s.srv.clients && Apply(s, l).srv.clients[r].alive == s.srv.clients[r].alive
  {
    if l.Work? {
      var task := s.th[l.t].task;
      assert Borrowed(task).Some? ==> Borrowed(task).value in s.srv.clients;
    }
  }

  lemma {:induction false} AliveRun(s: System, ls: seq<Label>, r: Ref)
    requires MemInv(s) && Legal(s, ls) && r in Exec(s, ls).srv.clients
    ensures var alive := Exec(s, ls).srv.clients[r].alive;
      if LastHeard(s, ls, r).Some? then alive == LastHeard(s, ls, r).value
      else r in s.srv.clients && alive == s.srv.clients[r].alive
    decreases |ls|
  {
    if ls != [] {
      MemStep(s, ls[0]);
      AliveRun(Apply(s, ls[0]), ls[1..], r);
      if LastHeard(Apply(s, ls[0]), ls[1..], r).None? {
        AliveStep(s, ls[0], r);
      }
    }
  }

  /** In every reachable state a session's `alive` is the time of its start or of its last heartbeat, if later. */
  lemma AliveIsLastHeard(n: nat, lower: nat, upper: nat, clock: int, config: Config, ls: seq<Label>, r: Ref)
    requires Legal(Start(n, lower, upper, clock, config), ls)
    ensures var s := Start(n, lower, upper, clock, config);
      r in Exec(s, ls).srv.clients ==> LastHeard(s, ls, r) == Some(Exec(s, ls).srv.clients[r].alive)
  {
    var s := Start(n, lower, upper, clock, config);
    MemStart(n, lower, upper, clock, config);
    if r in Exec(s, ls).srv.clients {
      AliveRun(s, ls, r);
    }
  }

  // ----- Heartbeats

  /** A heartbeat handler inside the index lock. */
  predicate Beating(th: Thread) {
    (th.task.Beat? && th.dict.InS?) || th.task.BeatAt?
  }

  /** The session the handler is about, if the identity is bound. */
  function Aim(s: Server, task: Task): Option<Ref> {
    match task
    case Beat(_, k) => if k in s.id then Some(s.id[k]) else None
    case BeatAt(_, r) => Some(r)
    case _ => None
  }

  predicate BeatsThroughout(s: System, ls: seq<Label>, t: Tid)
    requires Legal(s, ls)
    decreases |ls|
  {
    ls == [] || (t < |s.th| && Beating(s.th[t]) && BeatsThroughout(Apply(s, ls[0]), ls[1..], t))
  }

  lemma BeatStep(s: System, l: Label, t: Tid)
    requires MemInv(s) && Enabled(s, l) && t < |s.th| && Beating(s.th[t]) && Aim(s.srv, s.th[t].task).Some?
    ensures var s', r := Apply(s, l), Aim(s.srv, s.th[t].task).value;
      t < |s'.th| && (Aim(s'.srv, s'.th[t].task) == Some(r) || Hears(s, l, r))
  {
    assert Shape(s.th[t]);
    if l.Work? && l.t != t {
      assert Shape(s.th[l.t]);
      assert !Clash(StageOf(s.th[t], Dict), StageOf(s.th[l.t], Dict));
    }
  }

  /** Under every interleaving, a heartbeat whose identity is bound when the lock is taken is recorded. */
  lemma {:induction false} HeartbeatRecorded(s: System, ls: seq<Label>, t: Tid)
    requires MemInv(s) && Legal(s, ls) && BeatsThroughout(s, ls, t) && t < |s.th|
    requires Aim(s.srv, s.th[t].task).Some?
    ensures var e, r := Exec(s, ls), Aim(s.srv, s.th[t].task).value;
      t < |e.th| && (Aim(e.srv, e.th[t].task).None? ==> LastHeard(s, ls, r).Some?)
    decreases |ls|
  {
    if ls != [] {
      var s' := Apply(s, ls[0]);
      BeatStep(s, ls[0], t);
      MemStep(s, ls[0]);
      if Aim(s'.srv, s'.th[t].task) == Aim(s.srv, s.th[t].task) {
        HeartbeatRecorded(s', ls[1..], t);
      } else {
        LockStep(s, ls[0]);
        MemRun(s', ls[1..]);
      }
    }
  }

  // ----- Survival

  /** Whenever a sweep of the run reads its clock, less than 45 seconds have passed since the session was heard. */
  predicate HeardAtSweeps(s: System, ls: seq<Label>, r: Ref, heard: int)
    requires Legal(s, ls)
    decreases |ls|
  {
    ls == [] ||
    ((ReadsClock(s, ls[0]) ==> s.clock - heard < 45)
     && HeardAtSweeps(Apply(s, ls[0]), ls[1..], r, if Hears(s, ls[0], r) then s.clock else heard))
  }

  /** A sweep under way that has yet to look at `k` read its clock within the limit. */
  predicate Spares(task: Task, k: nat, heard: int) {
    Sweeping(task).Some? && k in Sweeping(task).value.1 ==> Sweeping(task).value.0 - heard < 45
  }

  ghost predicate Spared(s: System, k: nat, heard: int) {
    && k in s.srv.id && Deref(s.srv, s.srv.id[k]).alive == heard
    && forall t :: 0 <= t < |s.th| ==> Spares(s.th[t].task, k, heard)
  }

  /** While a sweep is under way no session is heard. */
  lemma NotHeardMeanwhile(s: System, l: Label, k: nat, t: Tid)
    requires MemInv(s) && Enabled(s, l) && k in s.srv.id && t < |s.th| && Sweeping(s.th[t].task).Some?
    ensures !Hears(s, l, s.srv.id[k])
  {
    if l.Work? {
      assert Shape(s.th[t]) && Shape(s.th[l.t]);
      assert l.t != t ==> !Clash(StageOf(s.th[t], Dict), StageOf(s.th[l.t], Dict));
      assert s.srv.id[k] < s.next;
    }
  }

  lemma SparesStep(s: System, l: Label, k: nat, heard: int, t: Tid)
    requires MemInv(s) && Enabled(s, l) && k in s.srv.id && t < |s.th| && Spares(s.th[t].task, k, heard)
    requires ReadsClock(s, l) ==> s.clock - heard < 45
    ensures Spares(Apply(s, l).th[t].task, k, if Hears(s, l, s.srv.id[k]) then s.clock else heard)
  {
    if Sweeping(s.th[t].task).Some? {
      NotHeardMeanwhile(s, l, k, t);
    }
  }

  lemma SparedStep(s: System, l: Label, k: nat, heard: int)
    requires MemInv(s) && Enabled(s, l) && Spared(s, k, heard)
    requires ReadsClock(s, l) ==> s.clock - heard < 45
    ensures !Drops(s, l, k)
    ensures Spared(Apply(s, l), k, if Hears(s, l, s.srv.id[k]) then s.clock else heard)
  {
    var s' := Apply(s, l);
    assert l.Work? ==> Spares(s.th[l.t].task, k, heard);
    BindingStep(s, l, k);
    MemStep(s, l);
    AliveStep(s, l, s.srv.id[k]);
    forall t | 0 <= t < |s'.th|
      ensures Spares(s'.th[t].task, k, if Hears(s, l, s.srv.id[k]) then s.clock else heard)
    {
      SparesStep(s, l, k, heard, t);
    }
  }

  lemma {:induction false} SparedInTime(s: System, ls: seq<Label>, k: nat, heard: int)
    requires MemInv(s) && Legal(s, ls) && Spared(s, k, heard) && HeardAtSweeps(s, ls, s.srv.id[k], heard)
    ensures HeardInTime(s, ls, k)
    decreases |ls|
  {
    if ls != [] {
      SparedStep(s, ls[0], k, heard);
      BindingStep(s, ls[0], k);
      MemStep(s, ls[0]);
      SparedInTime(Apply(s, ls[0]), ls[1..], k, if Hears(s, ls[0], s.srv.id[k]) then s.clock else heard);
    }
  }

  /**
    Survival: take any reachable state and a session bound there that was last
    heard at time `heard`.  If less than 45 seconds have passed since it was last
    heard whenever a sweep of the rest of the run reads its clock, and whenever
    one under way did, the session stays bound to the same live object, whatever
    sweeps and other handlers do meanwhile.
  */
  lemma Survival(n: nat, lower: nat, upper: nat, clock: int, config: Config,
                 ls: seq<Label>, more: seq<Label>, k: nat, heard: int)
    requires Legal(Start(n, lower, upper, clock, config), ls)
    requires Legal(Exec(Start(n, lower, upper, clock, config), ls), more)
    requires var s := Exec(Start(n, lower, upper, clock, config), ls);
      && k in s.srv.id && LastHeard(Start(n, lower, upper, clock, config), ls, s.srv.id[k]) == Some(heard)
      && (forall t :: 0 <= t < |s.th| ==> Spares(s.th[t].task, k, heard))
      && HeardAtSweeps(s, more, s.srv.id[k], heard)
    ensures var s := Exec(Start(n, lower, upper, clock, config), ls);
      var e := Exec(s, more);
      k in e.srv.id && e.srv.id[k] == s.srv.id[k] && e.srv.id[k] in e.srv.clients
  {
    MemStart(n, lower, upper, clock, config);
    MemRun(Start(n, lower, upper, clock, config), ls);
    var s := Exec(Start(n, lower, upper, clock, config), ls);
    AliveIsLastHeard(n, lower, upper, clock, config, ls, s.srv.id[k]);
    SparedInTime(s, more, k, heard);
    Survives(s, more, k);
  }

  /**
    Who survives a sweep, by when it was last heard: of the identities bound when
    the sweep reads its clock, exactly those whose session was started or heard
    less than 45 seconds before are bound when it leaves, and to the same session.
  */
  lemma SweepDropsTheSilent(n: nat, lower: nat, upper: nat, clock: int, config: Config, before: seq<Label>,
                            l: Label, ls: seq<Label>, k: nat)
    requires Legal(Start(n, lower, upper, clock, config), before)
    requires var s := Exec(Start(n, lower, upper, clock, config), before);
      && Enabled(s, l) && ReadsClock(s, l) && Legal(Apply(s, l), ls) && Throughout(Apply(s, l), ls, l.t)
      && l.t < |Exec(Apply(s, l), ls).th| && Exec(Apply(s, l), ls).th[l.t].task.Leave?
    ensures var s0 := Start(n, lower, upper, clock, config);
      var s := Exec(s0, before);
      var e := Exec(Apply(s, l), ls);
      if k !in s.srv.id then k !in e.srv.id
      else
        && LastHeard(s0, before, s.srv.id[k]).Some?
        && (k in e.srv.id <==> s.clock - LastHeard(s0, before, s.srv.id[k]).value < 45)
        && (k in e.srv.id ==> e.srv.id[k] == s.srv.id[k])
  {
    var s0 := Start(n, lower, upper, clock, config);
    var s := Exec(s0, before);
    var e := Exec(Apply(s, l), ls);
    SweepExact(n, lower, upper, clock, config, before, l, ls, Unlinking);
    MemStart(n, lower, upper, clock, config);
    MemRun(s0, before);
    assert k in Contents(e.srv) <==> k in Unexpired(s.srv, s.clock);
    if k in s.srv.id {
      AliveIsLastHeard(n, lower, upper, clock, config, before, s.srv.id[k]);
      assert k in e.srv.id ==> Contents(e.srv)[k] == Unexpired(s.srv, s.clock)[k];
    }
  }
}
