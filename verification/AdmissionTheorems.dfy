/** What every lock section keeps, and what holds over whole runs of the service. */
module AdmissionTheorems {
  import opened Sequences
  import opened Lifecycle
  import opened Admission

  // ---------------------------------------------------------------- invariant

  ghost predicate Bounded(s: State, lim: Limits) {
    |s.active| <= lim.maxActive && |s.queue| <= lim.maxQueued
  }

  /** The waiting line: distinct tasks, all known, all queued, none with a thread. */
  ghost predicate Line(s: State) {
    NoDup(s.queue) &&
    forall id :: id in s.queue ==>
      id in s.handles && s.handles[id].state == QUEUED && s.handles[id].worker == NoThread &&
      s.handles[id].queuedAt.Some?
  }

  predicate PastCleanup(w: Worker) {
    w != NoThread && w != Working
  }

  /** Where a task may be, given its state: queued tasks wait, unfinished tasks wait or
      hold a slot, finished tasks hold a slot only until their worker has given it back. */
  ghost predicate Places(s: State) {
    (forall id :: id in s.active ==>
       id in s.handles && s.handles[id].state != QUEUED &&
       (Terminal(s.handles[id].state) ==> s.handles[id].worker == Working || s.handles[id].worker == Returned)) &&
    (forall id :: id in s.handles ==>
       (s.handles[id].state == QUEUED ==> id in s.queue) &&
       (!Terminal(s.handles[id].state) ==> id in s.queue || id in s.active) &&
       (Terminal(s.handles[id].state) && PastCleanup(s.handles[id].worker) ==> s.handles[id].cleaned))
  }

  /** At most one unfinished run per schedule, at most one unfinished or live run per agent. */
  ghost predicate Exclusive(s: State) {
    forall a, b :: a in s.handles && b in s.handles && a != b ==>
      !(s.handles[a].schedule.Some? && s.handles[a].schedule == s.handles[b].schedule &&
        !Terminal(s.handles[a].state) && !Terminal(s.handles[b].state)) &&
      !(s.handles[a].agent == s.handles[b].agent && Live(s.handles[a]) && Live(s.handles[b]))
  }

  /** Every task ever created is accounted for exactly once. */
  ghost predicate Accounts(s: State) {
    NoDup(s.created) &&
    (forall id :: id in s.handles ==> id in s.created) &&
    |s.created| == |s.launched| + |s.queue| + |s.dropped| &&
    (forall id :: id in s.created ==> id in s.launched || id in s.queue || id in s.dropped)
  }

  /** Tasks have started in the order they were created. */
  ghost predicate StartOrder(s: State) {
    Subsequence(s.launched, s.created)
  }

  /** And everyone waiting was created after everyone who has started. */
  ghost predicate WaitOrder(s: State) {
    Subsequence(s.launched + s.queue, s.created)
  }

  ghost predicate History(s: State) {
    Accounts(s) && StartOrder(s) && (!s.shutdown ==> WaitOrder(s))
  }

  ghost predicate Inv(s: State, lim: Limits) {
    Bounded(s, lim) && Line(s) && Places(s) && Exclusive(s) && History(s)
  }

  // ------------------------------------------------------------ dispatch keeps it

  lemma {:induction false} SelectSplit(handles: map<TaskId, Handle>, q: seq<TaskId>, now: int, timeout: int)
    requires Known(handles, q)
    ensures |q| == |Select(handles, q, now, timeout, true)| + |Select(handles, q, now, timeout, false)|
  {
    if q != [] {
      KnownPart(handles, q);
      SelectSplit(handles, q[..|q| - 1], now, timeout);
    }
  }

  lemma {:induction false} SelectNoDup(handles: map<TaskId, Handle>, q: seq<TaskId>, now: int, timeout: int, late: bool)
    requires NoDup(q) && Known(handles, q)
    ensures NoDup(Select(handles, q, now, timeout, late))
    ensures |Select(handles, q, now, timeout, late)| <= |q|
  {
    if q != [] {
      var t, x := q[..|q| - 1], q[|q| - 1];
      assert NoDup(t) && x !in t;
      KnownPart(handles, q);
      SelectNoDup(handles, t, now, timeout, late);
      SelectMembers(handles, t, now, timeout, late);
      NoDupPush(Select(handles, t, now, timeout, late), x);
      hide NoDup, Subsequence, Overdue;
    }
  }

  lemma ExpireAccounts(s: State, lim: Limits, now: int)
    requires QueueKnown(s) && Accounts(s)
    ensures Accounts(Expire(s, lim, now))
  {
    hide Subsequence, NoDup;
    SelectMembers(s.handles, s.queue, now, lim.timeout, false);
    SelectMembers(s.handles, s.queue, now, lim.timeout, true);
    SelectSplit(s.handles, s.queue, now, lim.timeout);
  }

  /** Deleting from the waiting line disturbs no order. */
  lemma {:induction false} ShorterLine(launched: seq<TaskId>, queue: seq<TaskId>, shorter: seq<TaskId>,
                                       created: seq<TaskId>)
    requires Subsequence(shorter, queue) && Subsequence(launched + queue, created)
    ensures Subsequence(launched + shorter, created)
  {
    SubsequencePrefix(launched, shorter, queue);
    SubsequenceTrans(launched + shorter, launched + queue, created);
  }

  lemma ExpireHistory(s: State, lim: Limits, now: int)
    requires QueueKnown(s) && History(s)
    ensures History(Expire(s, lim, now))
  {
    hide Accounts, Subsequence;
    ExpireAccounts(s, lim, now);
    var early := Select(s.handles, s.queue, now, lim.timeout, false);
    SelectMembers(s.handles, s.queue, now, lim.timeout, false);
    if !s.shutdown { ShorterLine(s.launched, s.queue, early, s.created); }
  }

  lemma ExpireLine(s: State, lim: Limits, now: int)
    requires QueueKnown(s) && Bounded(s, lim) && Line(s)
    ensures var s' := Expire(s, lim, now); Bounded(s', lim) && Line(s')
  {
    SelectMembers(s.handles, s.queue, now, lim.timeout, true);
    SelectMembers(s.handles, s.queue, now, lim.timeout, false);
    SelectNoDup(s.handles, s.queue, now, lim.timeout, false);
  }

  lemma ExpirePlaces(s: State, lim: Limits, now: int)
    requires QueueKnown(s) && Line(s) && Places(s)
    ensures Places(Expire(s, lim, now))
  {
    hide NoDup, Subsequence;
    SelectMembers(s.handles, s.queue, now, lim.timeout, true);
    SelectMembers(s.handles, s.queue, now, lim.timeout, false);
  }

  /** No task appears, comes back to life or changes its schedule or agent. */
  ghost predicate Calmer(before: map<TaskId, Handle>, after: map<TaskId, Handle>) {
    forall id :: id in after ==> id in before && CalmerHandle(before[id], after[id])
  }

  predicate CalmerHandle(a: Handle, b: Handle) {
    b.schedule == a.schedule && b.agent == a.agent && (Live(b) ==> Live(a)) &&
    (!Terminal(b.state) ==> !Terminal(a.state))
  }

  lemma CalmerKeepsExclusive(s: State, t: State)
    requires Exclusive(s) && Calmer(s.handles, t.handles)
    ensures Exclusive(t)
  {
  }

  lemma ExpireExclusive(s: State, lim: Limits, now: int)
    requires QueueKnown(s) && Exclusive(s)
    ensures Exclusive(Expire(s, lim, now))
  {
    hide Exclusive;
    CalmerKeepsExclusive(s, Expire(s, lim, now));
  }

  lemma ExpireKeepsInv(s: State, lim: Limits, now: int)
    requires Inv(s, lim)
    ensures Inv(Expire(s, lim, now), lim)
  {
    ExpireHistory(s, lim, now);
    ExpireLine(s, lim, now);
    ExpirePlaces(s, lim, now);
    ExpireExclusive(s, lim, now);
  }

  lemma {:induction false} SubsequenceTail(q: seq<TaskId>)
    requires q != []
    ensures Subsequence(q[1..], q)
    decreases |q|
  {
    if |q| > 1 {
      var t := q[..|q| - 1];
      SubsequenceTail(t);
      SubsequencePush(t[1..], t, q[|q| - 1]);
      assert t[1..] + [q[|q| - 1]] == q[1..] && t + [q[|q| - 1]] == q;
    }
  }

  lemma HeadLeaves(q: seq<TaskId>)
    requires NoDup(q) && q != []
    ensures NoDup(q[1..])
    ensures forall id :: id in q[1..] <==> id in q && id != q[0]
  {
    assert q == [q[0]] + q[1..];
    assert q[0] !in q[1..];
  }

  lemma LaunchHeadPlaces(s: State, lim: Limits)
    requires Bounded(s, lim) && Line(s) && Places(s) && Exclusive(s)
    requires s.queue != [] && |s.active| < lim.maxActive && s.queue[0] in s.handles
    ensures var s' := LaunchHead(s); Bounded(s', lim) && Line(s') && Places(s') && Exclusive(s')
  {
    HeadInLine(s);
    HeadLineKept(s, lim);
    HeadPlacesKept(s);
    hide Exclusive, Line, Places;
    CalmerKeepsExclusive(s, LaunchHead(s));
  }

  lemma HeadInLine(s: State)
    requires Line(s) && s.queue != []
    ensures s.queue[0] in s.handles && s.handles[s.queue[0]].state == QUEUED
    ensures s.handles[s.queue[0]].worker == NoThread
  {
    hide NoDup;
    var id := s.queue[0];
    assert id in s.queue;
  }

  lemma HeadLineKept(s: State, lim: Limits)
    requires Bounded(s, lim) && Line(s) && s.queue != [] && s.queue[0] in s.handles
    ensures |s.active| < lim.maxActive ==> Bounded(LaunchHead(s), lim)
    ensures Bounded(FailHead(s), lim) && Line(LaunchHead(s)) && Line(FailHead(s))
  {
    ShorterLineKept(s);
    hide Line;
  }

  lemma ShorterLineKept(s: State)
    requires Line(s) && s.queue != [] && s.queue[0] in s.handles
    ensures Line(LaunchHead(s)) && Line(FailHead(s)) && s.queue[0] !in s.queue[1..]
  {
    HeadLeaves(s.queue);
    hide NoDup;
  }

  lemma HeadPlacesKept(s: State)
    requires Line(s) && Places(s) && s.queue != [] && s.queue[0] in s.handles
    ensures Places(LaunchHead(s)) && Places(FailHead(s))
  {
    HeadInLine(s);
    HeadLeaves(s.queue);
    hide NoDup;
  }

  lemma FailHeadPlaces(s: State, lim: Limits)
    requires Bounded(s, lim) && Line(s) && Places(s) && Exclusive(s)
    requires s.queue != [] && s.queue[0] in s.handles
    ensures var s' := FailHead(s); Bounded(s', lim) && Line(s') && Places(s') && Exclusive(s')
  {
    HeadInLine(s);
    HeadLineKept(s, lim);
    HeadPlacesKept(s);
    hide Exclusive, Line, Places;
    CalmerKeepsExclusive(s, FailHead(s));
  }

  lemma HeadAccounts(s: State)
    requires Line(s) && Accounts(s) && s.queue != [] && s.queue[0] in s.handles
    ensures Accounts(LaunchHead(s)) && Accounts(FailHead(s))
  {
    HeadLeaves(s.queue);
    hide NoDup;
  }

  lemma HeadHistory(s: State)
    requires Line(s) && History(s) && !s.shutdown && s.queue != [] && s.queue[0] in s.handles
    ensures History(LaunchHead(s)) && History(FailHead(s))
  {
    HeadAccounts(s);
    HeadOrders(s.launched, s.queue, s.created);
    hide Accounts, Line, Subsequence;
  }

  /** The head starts, or leaves the line. */
  lemma {:induction false} HeadOrders(launched: seq<TaskId>, queue: seq<TaskId>, created: seq<TaskId>)
    requires Subsequence(launched + queue, created) && queue != []
    ensures Subsequence(launched + queue[1..], created)
    ensures Subsequence((launched + [queue[0]]) + queue[1..], created)
    ensures Subsequence(launched + [queue[0]], created)
  {
    hide Subsequence;
    var x, t := queue[0], queue[1..];
    assert launched + queue == (launched + [x]) + t;
    SubsequenceTail(queue);
    ShorterLine(launched, queue, t, created);
    StartedPart(launched + [x], t, created);
  }

  lemma {:induction false} StartedPart(launched: seq<TaskId>, queue: seq<TaskId>, created: seq<TaskId>)
    requires Subsequence(launched + queue, created)
    ensures Subsequence(launched, created)
  {
    SubsequenceNil(queue);
    ShorterLine(launched, queue, [], created);
    assert launched + [] == launched;
  }

  lemma {:induction false} AdmitKeepsInv(s: State, lim: Limits, fails: set<TaskId>)
    requires Inv(s, lim) && !s.shutdown
    ensures Inv(Admit(s, lim, fails).0, lim)
    ensures var (s', ok) := Admit(s, lim, fails);
      ok ==> s'.queue == [] || |s'.active| == lim.maxActive
    decreases |s.queue|
  {
    hide Subsequence, NoDup;
    if s.queue != [] && |s.active| < lim.maxActive {
      HeadKnown(s);
      HeadHistory(s);
      if s.queue[0] in fails {
        FailHeadPlaces(s, lim);
      } else {
        LaunchHeadPlaces(s, lim);
        AdmitKeepsInv(LaunchHead(s), lim, fails);
      }
    }
  }

  lemma DispatchKeepsInv(s: State, lim: Limits, now: int, fails: set<TaskId>)
    requires Inv(s, lim)
    ensures Inv(Dispatch(s, lim, now, fails).0, lim)
  {
    if !s.shutdown {
      ExpireKeepsInv(s, lim, now);
      AdmitKeepsInv(Expire(s, lim, now), lim, fails);
    }
  }

  /** What `Admit` does in one stroke: the first `k` waiting tasks start, in order. */
  lemma {:induction false} AdmitMeaning(s: State, lim: Limits, fails: set<TaskId>) returns (k: nat)
    requires QueueKnown(s)
    ensures var (s', ok) := Admit(s, lim, fails);
      k <= |s.queue| && s'.launched == s.launched + s.queue[..k] &&
      (ok ==> s'.queue == s.queue[k..] && s'.dropped == s.dropped) &&
      (!ok ==> k < |s.queue| && s.queue[k] in fails && s'.queue == s.queue[k + 1..] &&
               s'.dropped == s.dropped + [s.queue[k]])
    decreases |s.queue|
  {
    if s.queue == [] || |s.active| >= lim.maxActive {
      k := 0;
      assert s.queue[..0] == [] && s.queue[0..] == s.queue;
    } else {
      HeadKnown(s);
      if s.queue[0] in fails {
        k := 0;
        assert s.queue[..0] == [];
      } else {
        var m := AdmitMeaning(LaunchHead(s), lim, fails);
        k := m + 1;
        PrefixOfTail(s.queue, s.launched, m);
      }
    }
  }

  /** The tasks of `late` are cancelled, those of `started` run, `failed` could not be started; all others stay. */
  ghost predicate Moved(before: map<TaskId, Handle>, after: map<TaskId, Handle>, late: set<TaskId>,
                        started: seq<TaskId>, failed: Option<TaskId>)
  {
    after.Keys == before.Keys &&
    forall id :: id in before ==>
      after[id] == (if id in late then before[id].(state := CANCELLED)
                    else if id in started then before[id].(state := CREATED, worker := Working)
                    else if failed == Some(id) then before[id].(state := FAILED) else before[id])
  }

  /** The same with what becomes of each handle and of the slots. */
  lemma {:induction false} AdmitMoves(s: State, lim: Limits, fails: set<TaskId>) returns (k: nat)
    requires Line(s)
    ensures QueueKnown(s)
    ensures var (s', ok) := Admit(s, lim, fails);
      k <= |s.queue| && s'.launched == s.launched + s.queue[..k] &&
      (ok ==> s'.queue == s.queue[k..] && s'.dropped == s.dropped) &&
      (!ok ==> k < |s.queue| && s.queue[k] in fails && s'.queue == s.queue[k + 1..] &&
               s'.dropped == s.dropped + [s.queue[k]])
    ensures var (s', ok) := Admit(s, lim, fails);
      Moved(s.handles, s'.handles, {}, s.queue[..k], if ok || k == |s.queue| then None else Some(s.queue[k])) &&
      (forall id :: id in s'.active <==> id in s.active || id in s.queue[..k]) &&
      (forall i :: 0 <= i < k ==> s.queue[i] !in fails) &&
      s'.created == s.created && s'.shutdown == s.shutdown
    ensures var (s', ok) := Admit(s, lim, fails); ok ==> s'.queue == [] || |s'.active| >= lim.maxActive
    decreases |s.queue|
  {
    hide NoDup;
    if s.queue == [] || |s.active| >= lim.maxActive {
      k := 0;
      assert s.queue[..0] == [] && s.queue[0..] == s.queue;
    } else {
      HeadKnown(s);
      HeadInLine(s);
      ShorterLineKept(s);
      if s.queue[0] in fails {
        k := 0;
        assert s.queue[..0] == [];
      } else {
        var m := AdmitMoves(LaunchHead(s), lim, fails);
        k := m + 1;
        hide Line, Moved;
        PrefixOfTail(s.queue, s.launched, m);
        HeadMovesToo(s, lim, fails, m);
      }
    }
  }

  lemma HeadMovesToo(s: State, lim: Limits, fails: set<TaskId>, m: nat)
    requires Line(s) && s.queue != [] && s.queue[0] in s.handles && s.queue[0] !in fails && m < |s.queue|
    requires s.handles[s.queue[0]].state == QUEUED && s.queue[0] !in s.queue[1..]
    requires var t := LaunchHead(s); QueueKnown(t) && var (s', ok) := Admit(t, lim, fails);
      Moved(t.handles, s'.handles, {}, t.queue[..m], if ok || m == |t.queue| then None else Some(t.queue[m])) &&
      (forall id :: id in s'.active <==> id in t.active || id in t.queue[..m]) &&
      (forall i :: 0 <= i < m ==> t.queue[i] !in fails)
    ensures var (s', ok) := Admit(LaunchHead(s), lim, fails);
      Moved(s.handles, s'.handles, {}, s.queue[..m + 1],
            if ok || m + 1 == |s.queue| then None else Some(s.queue[m + 1])) &&
      (forall id :: id in s'.active <==> id in s.active || id in s.queue[..m + 1]) &&
      (forall i :: 0 <= i < m + 1 ==> s.queue[i] !in fails)
  {
    hide Admit, NoDup, Line;
    var q := s.queue;
    assert q[..m + 1] == [q[0]] + q[1..][..m];
    assert forall i :: 0 < i < m + 1 ==> q[i] == q[1..][i - 1];
    assert m < |q| - 1 ==> q[m + 1] == q[1..][m] && q[m + 1] != q[0];
    assert q[0] !in q[1..][..m];
  }

  lemma PrefixOfTail(q: seq<TaskId>, p: seq<TaskId>, m: nat)
    requires q != [] && m <= |q| - 1
    ensures q[1..][m..] == q[m + 1..] && (p + [q[0]]) + q[1..][..m] == p + q[..m + 1]
    ensures m + 1 < |q| ==> q[1..][m] == q[m + 1] && q[1..][m + 1..] == q[m + 2..]
  {
    assert [q[0]] + q[1..][..m] == q[..m + 1];
  }

  /** What `Admit` leaves alone. */
  lemma {:induction false} AdmitFrame(s: State, lim: Limits, fails: set<TaskId>)
    requires QueueKnown(s) && NoDup(s.queue)
    ensures var s' := Admit(s, lim, fails).0;
      s'.created == s.created && s'.shutdown == s.shutdown && s'.handles.Keys == s.handles.Keys &&
      (forall id :: id in s.handles && id !in s.queue ==> s'.handles[id] == s.handles[id]) &&
      (forall id :: id in s.handles && id in s'.queue ==> s'.handles[id] == s.handles[id]) &&
      (forall id :: id in s.handles ==> s'.handles[id].agent == s.handles[id].agent) &&
      (forall id :: id in s'.queue ==> id in s.queue) &&
      (forall id :: id in s'.active ==> id in s.active || id in s.queue)
    decreases |s.queue|
  {
    if s.queue != [] && |s.active| < lim.maxActive {
      HeadKnown(s);
      HeadLeaves(s.queue);
      assert s.queue[0] in s.queue;
      if s.queue[0] !in fails {
        AdmitFrame(LaunchHead(s), lim, fails);
      }
    }
  }

  lemma DispatchFrame(s: State, lim: Limits, now: int, fails: set<TaskId>)
    requires Inv(s, lim)
    ensures var s' := Dispatch(s, lim, now, fails).0;
      s'.created == s.created && s'.shutdown == s.shutdown && s'.handles.Keys == s.handles.Keys &&
      (forall id :: id in s.handles ==> s'.handles[id].agent == s.handles[id].agent)
  {
    if !s.shutdown {
      ExpireKeepsInv(s, lim, now);
      AdmitFrame(Expire(s, lim, now), lim, fails);
    }
  }

  /** Waiting for the queue timeout or longer. */
  ghost predicate TooLate(s: State, lim: Limits, now: int, id: TaskId) {
    id in s.handles && s.handles[id].queuedAt.Some? && now >= s.handles[id].queuedAt.value + lim.timeout
  }

  ghost function TooLateOnes(s: State, lim: Limits, now: int): set<TaskId> {
    set id | id in s.queue && TooLate(s, lim, now, id)
  }

  /** What one dispatch does: exactly the overdue are cancelled, of the others, in order, the first `k` start, and
      one whose worker cannot be started fails and ends it; otherwise tasks wait only while every slot is taken. */
  lemma DispatchMeaning(s: State, lim: Limits, now: int, fails: set<TaskId>) returns (rest: seq<TaskId>, k: nat)
    requires Inv(s, lim) && !s.shutdown
    ensures Subsequence(rest, s.queue) && NoDup(rest)
    ensures forall id :: id in rest <==> id in s.queue && !TooLate(s, lim, now, id)
    ensures var (t, ok) := Dispatch(s, lim, now, fails);
      k <= |rest| && t.launched == s.launched + rest[..k] && (forall i :: 0 <= i < k ==> rest[i] !in fails) &&
      (ok ==> t.queue == rest[k..] && (t.queue == [] || |t.active| == lim.maxActive)) &&
      (!ok ==> k < |rest| && rest[k] in fails && t.queue == rest[k + 1..])
    ensures var (t, ok) := Dispatch(s, lim, now, fails);
      Moved(s.handles, t.handles, TooLateOnes(s, lim, now), rest[..k],
            if ok || k == |rest| then None else Some(rest[k])) &&
      (forall id :: id in t.active <==> id in s.active || id in rest[..k]) &&
      t.created == s.created && t.shutdown == s.shutdown
  {
    assert QueueKnown(s);
    ExpireKeepsInv(s, lim, now);
    var e := Expire(s, lim, now);
    AdmitKeepsInv(e, lim, fails);
    rest := e.queue;
    ExpireMeaning(s, lim, now);
    assert Dispatch(s, lim, now, fails) == Admit(e, lim, fails) && Line(e);
    assert |Admit(e, lim, fails).0.active| <= lim.maxActive;
    hide Inv, Line, Expire, Dispatch, Admit, TooLate, TooLateOnes, NoDup;
    k := AdmitMoves(e, lim, fails);
    LateThenMoved(s, e, lim, now, Dispatch(s, lim, now, fails).0, rest, k, Dispatch(s, lim, now, fails).1);
  }

  lemma ExpireMeaning(s: State, lim: Limits, now: int)
    requires Line(s) && QueueKnown(s)
    ensures var e := Expire(s, lim, now);
      Subsequence(e.queue, s.queue) && NoDup(e.queue) && e.active == s.active && e.launched == s.launched &&
      e.created == s.created && e.shutdown == s.shutdown &&
      (forall id :: id in e.queue <==> id in s.queue && !TooLate(s, lim, now, id)) &&
      e.handles.Keys == s.handles.Keys &&
      forall id :: id in s.handles ==>
        e.handles[id] == if id in TooLateOnes(s, lim, now) then s.handles[id].(state := CANCELLED) else s.handles[id]
  {
    SelectMembers(s.handles, s.queue, now, lim.timeout, false);
    SelectMembers(s.handles, s.queue, now, lim.timeout, true);
    SelectNoDup(s.handles, s.queue, now, lim.timeout, false);
    assert forall id :: id in s.queue ==> (Overdue(s.handles[id], now, lim.timeout) <==> TooLate(s, lim, now, id));
    hide Select, NoDup, Subsequence, Overdue, TooLate;
  }

  lemma LateThenMoved(s: State, e: State, lim: Limits, now: int, t: State, rest: seq<TaskId>, k: nat, ok: bool)
    requires k <= |rest| && e.handles.Keys == s.handles.Keys
    requires forall id :: id in s.handles ==>
      e.handles[id] == if id in TooLateOnes(s, lim, now) then s.handles[id].(state := CANCELLED) else s.handles[id]
    requires forall id :: id in rest ==> id in s.queue && !TooLate(s, lim, now, id)
    requires Moved(e.handles, t.handles, {}, rest[..k], if ok || k == |rest| then None else Some(rest[k]))
    ensures Moved(s.handles, t.handles, TooLateOnes(s, lim, now), rest[..k],
                  if ok || k == |rest| then None else Some(rest[k]))
  {
    hide TooLate;
    assert forall id :: id in rest[..k] ==> id in rest;
    assert k < |rest| ==> rest[k] in rest;
  }

  /** In particular nobody overdue is left waiting and the overdue hold no slot. */
  lemma DispatchOutcome(s: State, lim: Limits, now: int, fails: set<TaskId>)
    requires Inv(s, lim) && !s.shutdown && Dispatch(s, lim, now, fails).1
    ensures var s' := Dispatch(s, lim, now, fails).0;
      (s'.queue == [] || |s'.active| == lim.maxActive) &&
      (forall id :: id in s'.queue ==> id in s'.handles && !Overdue(s'.handles[id], now, lim.timeout)) &&
      (forall id :: id in s.queue && Overdue(s.handles[id], now, lim.timeout) ==>
         id in s'.handles && s'.handles[id].state == CANCELLED && id !in s'.active)
  {
    ExpireKeepsInv(s, lim, now);
    var e := Expire(s, lim, now);
    AdmitKeepsInv(e, lim, fails);
    SelectMembers(s.handles, s.queue, now, lim.timeout, false);
    SelectMembers(s.handles, s.queue, now, lim.timeout, true);
    AdmitFrame(e, lim, fails);
  }

  // -------------------------------------------------------- every step keeps it

  lemma RegisterAccounts(s: State, req: Request)
    requires Accounts(s) && req.id !in s.created
    ensures Accounts(Enqueue(s, req)) && Accounts(FailNew(s, req)) && Accounts(LaunchNew(s, req))
  {
    NoDupPush(s.created, req.id);
    hide NoDup;
  }

  lemma NoDupPush(q: seq<TaskId>, x: TaskId)
    requires NoDup(q) && x !in q
    ensures NoDup(q + [x])
  {
  }

  lemma {:induction false} NewComesLast(launched: seq<TaskId>, queue: seq<TaskId>, created: seq<TaskId>, x: TaskId)
    requires Subsequence(launched + queue, created)
    ensures Subsequence(launched + queue, created + [x])
    ensures Subsequence(launched + (queue + [x]), created + [x])
    ensures queue == [] ==> Subsequence((launched + [x]) + queue, created + [x])
  {
    SubsequencePush(launched + queue, created, x);
    hide Subsequence;
    assert (launched + queue) + [x] == launched + (queue + [x]);
    assert queue == [] ==> (launched + [x]) + queue == (launched + queue) + [x];
  }

  /** A new task comes last, so it may wait behind the line or fail; it may also start, without
      disturbing the order of starts, but the line only if that is empty. */
  lemma RegisterHistory(s: State, req: Request)
    requires History(s) && req.id !in s.created
    ensures History(Enqueue(s, req)) && History(FailNew(s, req))
    ensures s.shutdown || s.queue == [] ==> History(LaunchNew(s, req))
  {
    hide Accounts, Subsequence;
    RegisterAccounts(s, req);
    RegisterOrders(s, req);
  }

  lemma RegisterOrders(s: State, req: Request)
    requires StartOrder(s) && (!s.shutdown ==> WaitOrder(s))
    ensures forall n :: n in [Enqueue(s, req), FailNew(s, req)] ==> StartOrder(n) && (!s.shutdown ==> WaitOrder(n))
    ensures StartOrder(LaunchNew(s, req))
    ensures !s.shutdown && s.queue == [] ==> WaitOrder(LaunchNew(s, req))
  {
    hide Subsequence;
    SubsequencePush(s.launched, s.created, req.id);
    if !s.shutdown { NewComesLast(s.launched, s.queue, s.created, req.id); }
  }

  /** No unfinished run of the same schedule and no live run of the same agent. */
  ghost predicate Admissible(s: State, req: Request) {
    req.id !in s.handles &&
    (forall id :: id in s.handles ==>
       !(req.schedule.Some? && s.handles[id].schedule == req.schedule && !Terminal(s.handles[id].state)) &&
       !(s.handles[id].agent == NewHandle(req).agent && Live(s.handles[id])))
  }

  lemma NotBusyIsAdmissible(s: State, req: Request)
    requires FreshRequest(s, req) && !ScheduleBusy(s.handles, req.schedule) && !AgentBusy(s.handles, req.agent)
    ensures Admissible(s, req)
  {
  }

  lemma EnqueuePlaces(s: State, lim: Limits, req: Request)
    requires Bounded(s, lim) && Line(s) && Places(s) && Exclusive(s) && Admissible(s, req)
    requires |s.queue| < lim.maxQueued
    ensures var s' := Enqueue(s, req); Bounded(s', lim) && Line(s') && Places(s') && Exclusive(s')
  {
    assert forall id :: id in s.queue + [req.id] <==> id in s.queue || id == req.id;
  }

  lemma LaunchNewPlaces(s: State, lim: Limits, req: Request)
    requires Bounded(s, lim) && Line(s) && Places(s) && Exclusive(s) && Admissible(s, req)
    requires |s.active| < lim.maxActive
    ensures var s' := LaunchNew(s, req); Bounded(s', lim) && Line(s') && Places(s') && Exclusive(s')
  {
  }

  lemma FailNewPlaces(s: State, lim: Limits, req: Request)
    requires Bounded(s, lim) && Line(s) && Places(s) && Exclusive(s) && Admissible(s, req)
    ensures var s' := FailNew(s, req); Bounded(s', lim) && Line(s') && Places(s') && Exclusive(s')
  {
  }

  /** The part of `create_task` after its dispatch. */
  lemma RegisterKeepsInv(s: State, lim: Limits, req: Request, fails: set<TaskId>)
    requires Inv(s, lim) && FreshRequest(s, req)
    requires s.shutdown || s.queue == [] || |s.active| == lim.maxActive
    ensures Inv(Register(s, lim, req, fails).0, lim)
  {
    if !ScheduleBusy(s.handles, req.schedule) && !AgentBusy(s.handles, req.agent) {
      NotBusyIsAdmissible(s, req);
      RegisteredKeepsInv(s, lim, req);
    }
    hide Inv, Enqueue, LaunchNew, FailNew, Admissible, ScheduleBusy, AgentBusy;
  }

  lemma RegisteredKeepsInv(s: State, lim: Limits, req: Request)
    requires Inv(s, lim) && FreshRequest(s, req) && Admissible(s, req)
    ensures |s.queue| < lim.maxQueued ==> Inv(Enqueue(s, req), lim)
    ensures |s.active| < lim.maxActive ==> Inv(FailNew(s, req), lim)
    ensures |s.active| < lim.maxActive && (s.shutdown || s.queue == []) ==> Inv(LaunchNew(s, req), lim)
  {
    RegisterHistory(s, req);
    hide History, Line, Places, Exclusive, Admissible, Enqueue, LaunchNew, FailNew;
    if |s.queue| < lim.maxQueued { EnqueuePlaces(s, lim, req); }
    if |s.active| < lim.maxActive {
      LaunchNewPlaces(s, lim, req);
      FailNewPlaces(s, lim, req);
    }
  }

  /** Both ways to the second half of `create_task`: after a dispatch, or with the event set meanwhile. */
  lemma CreateKeepsInv(s: State, lim: Limits, req: Request, now: int, fails: set<TaskId>, raced: bool)
    requires Inv(s, lim) && FreshRequest(s, req)
    ensures Inv(CreateTask(s, lim, req, now, fails, raced).0, lim)
  {
    assert QueueKnown(s);
    hide History, Line, Places, Exclusive, QueueKnown, Register;
    if !s.shutdown {
      BeginKeepsInv(s, lim);
      DispatchKeepsInv(s, lim, now, fails);
      DispatchFrame(s, lim, now, fails);
      var (s1, ok) := if raced then (BeginShutdown(s), true) else Dispatch(s, lim, now, fails);
      if ok {
        if !raced { DispatchOutcome(s, lim, now, fails); }
        RegisterKeepsInv(s1, lim, req, fails);
      }
    }
  }

  lemma {:induction false} RemoveMember(q: seq<TaskId>, id: TaskId)
    requires NoDup(q) && id in q
    ensures NoDup(Remove(q, id)) && |Remove(q, id)| == |q| - 1
    ensures forall x :: x in Remove(q, id) <==> x in q && x != id
    ensures Subsequence(Remove(q, id), q)
  {
    HeadLeaves(q);
    SubsequenceTail(q);
    if q[0] != id {
      RemoveMember(q[1..], id);
      assert q[0] !in Remove(q[1..], id);
      SubsequencePrefix([q[0]], Remove(q[1..], id), q[1..]);
      assert q == [q[0]] + q[1..];
    }
  }

  lemma CancelQueuedKeepsInv(s: State, lim: Limits, id: TaskId)
    requires Inv(s, lim)
    ensures Inv(CancelQueued(s, id), lim)
  {
    if id in s.handles && s.handles[id].state == QUEUED {
      CancelQueuedHistory(s, id);
      CancelQueuedPlaces(s, lim, id);
    }
  }

  lemma CancelQueuedPlaces(s: State, lim: Limits, id: TaskId)
    requires Bounded(s, lim) && Line(s) && Places(s) && Exclusive(s)
    requires id in s.handles && s.handles[id].state == QUEUED
    ensures var s' := CancelQueued(s, id); Bounded(s', lim) && Line(s') && Places(s') && Exclusive(s')
  {
    hide Subsequence;
    RemoveMember(s.queue, id);
    CalmerKeepsExclusive(s, CancelQueued(s, id));
    hide Exclusive, Remove;
  }

  lemma CancelQueuedHistory(s: State, id: TaskId)
    requires Line(s) && History(s) && id in s.handles && s.handles[id].state == QUEUED && id in s.queue
    ensures History(CancelQueued(s, id))
    ensures WaitOrder(s) ==> WaitOrder(CancelQueued(s, id))
  {
    RemoveMember(s.queue, id);
    CancelQueuedAccounts(s, id);
    hide Accounts, Remove, NoDup;
    if WaitOrder(s) {
      ShorterLine(s.launched, s.queue, Remove(s.queue, id), s.created);
      hide Subsequence;
    }
  }

  lemma CancelQueuedAccounts(s: State, id: TaskId)
    requires NoDup(s.queue) && Accounts(s) && id in s.handles && s.handles[id].state == QUEUED && id in s.queue
    ensures Accounts(CancelQueued(s, id))
  {
    RemoveMember(s.queue, id);
    hide Remove, NoDup;
    var dropped := s.dropped + [id];
    assert dropped[|s.dropped|] == id;
  }

  /** A change of one task that is not waiting, which revives nothing and respects cleanup. */
  lemma HandleStep(s: State, lim: Limits, id: TaskId, h: Handle)
    requires Inv(s, lim) && id in s.handles
    requires s.handles[id].state != QUEUED && h.state != QUEUED
    requires h.schedule == s.handles[id].schedule && h.agent == s.handles[id].agent
    requires Live(h) ==> Live(s.handles[id])
    requires !Terminal(h.state) ==> !Terminal(s.handles[id].state)
    requires id in s.active && Terminal(h.state) ==> h.worker == Working || h.worker == Returned
    requires Terminal(h.state) && PastCleanup(h.worker) ==> h.cleaned
    ensures Inv(s.(handles := s.handles[id := h]), lim)
  {
    HandleExclusive(s, id, h);
    HandlePlaces(s, id, h);
    HandleHistory(s, id, h);
    hide Exclusive, Places, History, NoDup;
  }

  lemma HandlePlaces(s: State, id: TaskId, h: Handle)
    requires Places(s) && id in s.handles && s.handles[id].state != QUEUED && h.state != QUEUED
    requires !Terminal(h.state) ==> !Terminal(s.handles[id].state)
    requires id in s.active && Terminal(h.state) ==> h.worker == Working || h.worker == Returned
    requires Terminal(h.state) && PastCleanup(h.worker) ==> h.cleaned
    ensures Places(s.(handles := s.handles[id := h]))
  {
  }

  lemma HandleHistory(s: State, id: TaskId, h: Handle)
    requires History(s) && id in s.handles
    ensures History(s.(handles := s.handles[id := h]))
  {
    hide Subsequence, NoDup;
  }

  lemma HandleExclusive(s: State, id: TaskId, h: Handle)
    requires Exclusive(s) && id in s.handles && CalmerHandle(s.handles[id], h)
    ensures Exclusive(s.(handles := s.handles[id := h]))
  {
    hide CalmerHandle;
    assert forall x: Handle :: CalmerHandle(x, x) by { CalmerReflexive(); }
    hide Exclusive;
    CalmerKeepsExclusive(s, s.(handles := s.handles[id := h]));
  }

  lemma CalmerReflexive()
    ensures forall x: Handle :: CalmerHandle(x, x)
  {
  }

  /** Giving a slot back and marking the worker as past its final lock section. */
  lemma ReleaseSlot(s: State, lim: Limits, id: TaskId)
    requires Inv(s, lim) && id in s.handles && s.handles[id].worker == Returned
    ensures Inv(GiveSlotBack(s, id), lim)
  {
    if Terminal(s.handles[id].state) {
      FreeSlot(s, lim, id);
      HandleStep(s.(active := s.active - {id}), lim, id, s.handles[id].(worker := Released));
    } else {
      HandleStep(s, lim, id, s.handles[id].(worker := Released));
    }
  }

  lemma FreeSlot(s: State, lim: Limits, id: TaskId)
    requires Inv(s, lim) && id in s.handles && Terminal(s.handles[id].state)
    ensures Inv(s.(active := s.active - {id}), lim)
  {
    assert |s.active - {id}| <= |s.active|;
  }

  lemma DeleteKeepsInv(s: State, lim: Limits, id: TaskId)
    requires Inv(s, lim)
    ensures Inv(Delete(s, id), lim)
  {
    if id in s.handles && Terminal(s.handles[id].state) && !Alive(s.handles[id].worker) {
      DeletePlaces(s, id);
      DeleteExclusive(s, id);
      DeleteLine(s, id);
      DeleteHistory(s, id);
      hide Exclusive, Places, Line, History;
      assert |s.active - {id}| <= |s.active|;
    }
  }

  lemma DeleteLine(s: State, id: TaskId)
    requires Line(s)
    ensures Line(Delete(s, id))
  {
    hide NoDup;
  }

  lemma DeleteHistory(s: State, id: TaskId)
    requires History(s)
    ensures History(Delete(s, id))
  {
    hide Subsequence, NoDup;
  }

  lemma DeletePlaces(s: State, id: TaskId)
    requires Places(s)
    ensures Places(Delete(s, id))
  {
  }

  lemma DeleteExclusive(s: State, id: TaskId)
    requires Exclusive(s)
    ensures Exclusive(Delete(s, id))
  {
  }

  lemma DrainKeepsInv(s: State, lim: Limits)
    requires Inv(s, lim)
    ensures Inv(Drain(s), lim)
  {
    CalmerKeepsExclusive(s, Drain(s));
    DrainHistory(s);
    hide Exclusive, History;
  }

  lemma DrainHistory(s: State)
    requires History(s)
    ensures History(Drain(s))
  {
    hide Subsequence, NoDup;
  }

  lemma {:induction false} SubsequenceNil(q: seq<TaskId>)
    ensures Subsequence([], q)
  {
  }

  lemma SubsetFull(a: set<TaskId>, b: set<TaskId>)
    requires a <= b && |b| <= |a|
    ensures a == b
  {
    assert b == a + (b - a);
  }

  lemma SweepKeepsInv(s: State, lim: Limits, built: set<TaskId>)
    requires Inv(s, lim)
    ensures Inv(Sweep(s, built), lim)
  {
    if s.shutdown && s.queue == [] {
      SubsetSize(Sweep(s, built).active, s.active);
      SweepPlaces(s, built);
      SweepHistory(s, built);
      CalmerKeepsExclusive(s, Sweep(s, built));
      hide Exclusive, Places, History;
    }
  }

  lemma SweepPlaces(s: State, built: set<TaskId>)
    requires Places(s) && s.shutdown && s.queue == []
    ensures Places(Sweep(s, built))
  {
  }

  lemma SweepHistory(s: State, built: set<TaskId>)
    requires History(s) && s.shutdown && s.queue == []
    ensures History(Sweep(s, built))
  {
    hide Subsequence, NoDup;
  }

  lemma ReleaseKeepsInv(s: State, lim: Limits, id: TaskId, now: int, fails: set<TaskId>)
    requires Inv(s, lim)
    ensures Inv(Release(s, lim, id, now, fails), lim)
  {
    hide Bounded, Line, Places, Exclusive, History;
    if id in s.handles && s.handles[id].worker == Returned {
      ReleaseSlot(s, lim, id);
      DispatchKeepsInv(GiveSlotBack(s, id), lim, now, fails);
    }
  }

  lemma WorkerKeepsInv(s: State, lim: Limits, id: TaskId, to: TaskState, raised: bool)
    requires Inv(s, lim)
    ensures Inv(Progress(s, id, to), lim) && Inv(TargetDone(s, id, raised), lim) && Inv(ThreadExit(s, id), lim)
  {
    hide Exclusive, History, Bounded;
    if Progress(s, id, to) != s { HandleStep(s, lim, id, s.handles[id].(state := to)); }
    if TargetDone(s, id, raised) != s { HandleStep(s, lim, id, TargetDone(s, id, raised).handles[id]); }
    if ThreadExit(s, id) != s { HandleStep(s, lim, id, s.handles[id].(worker := Exited)); }
  }

  lemma UserKeepsInv(s: State, lim: Limits, id: TaskId, canStart: bool)
    requires Inv(s, lim)
    ensures Inv(Stop(s, id), lim) && Inv(Resume(s, id, canStart), lim)
  {
    hide Exclusive, History, Bounded;
    if Stop(s, id) != s { HandleStep(s, lim, id, s.handles[id].(state := PAUSING)); }
    if Resume(s, id, canStart) != s { HandleStep(s, lim, id, Resume(s, id, canStart).handles[id]); }
  }

  lemma BeginKeepsInv(s: State, lim: Limits)
    requires Inv(s, lim)
    ensures Inv(BeginShutdown(s), lim)
  {
  }

  lemma StepKeepsInv(s: State, lim: Limits, step: Step)
    requires Inv(s, lim)
    ensures Inv(Apply(s, lim, step), lim)
  {
    hide Bounded, Line, Places, Exclusive, History;
    match step
    case Create(req, now, fails, raced) => if FreshRequest(s, req) { CreateKeepsInv(s, lim, req, now, fails, raced); }
    case Tick(now, fails) => DispatchKeepsInv(s, lim, now, fails);
    case WorkerProgress(id, to) => WorkerKeepsInv(s, lim, id, to, false);
    case WorkerDone(id, raised) => WorkerKeepsInv(s, lim, id, CREATED, raised);
    case WorkerRelease(id, now, fails) => ReleaseKeepsInv(s, lim, id, now, fails);
    case WorkerExit(id) => WorkerKeepsInv(s, lim, id, CREATED, false);
    case UserCancelQueued(id) => CancelQueuedKeepsInv(s, lim, id);
    case UserDelete(id) => DeleteKeepsInv(s, lim, id);
    case UserStop(id) => UserKeepsInv(s, lim, id, false);
    case UserResume(id, canStart) => UserKeepsInv(s, lim, id, canStart);
    case ShutdownBegin => BeginKeepsInv(s, lim);
    case ShutdownDrain => DrainKeepsInv(s, lim);
    case ShutdownSweep(built) => SweepKeepsInv(s, lim, built);
  }

  // ---------------------------------------------------------------- whole runs

  ghost function Run(s: State, lim: Limits, steps: seq<Step>): State
    requires Inv(s, lim)
    decreases |steps|
  {
    if steps == [] then s
    else
      StepKeepsInv(s, lim, steps[0]);
      Run(Apply(s, lim, steps[0]), lim, steps[1..])
  }

  lemma InitialInv(lim: Limits)
    ensures Inv(INITIAL, lim)
  {
    assert INITIAL.launched + INITIAL.queue == [];
  }

  lemma {:induction false} RunKeepsInv(s: State, lim: Limits, steps: seq<Step>)
    requires Inv(s, lim)
    ensures Inv(Run(s, lim, steps), lim)
    decreases |steps|
  {
    if steps != [] {
      StepKeepsInv(s, lim, steps[0]);
      RunKeepsInv(Apply(s, lim, steps[0]), lim, steps[1..]);
    }
  }

  /** The state a freshly built service reaches after the given steps. */
  ghost function Reached(lim: Limits, steps: seq<Step>): State {
    InitialInv(lim);
    Run(INITIAL, lim, steps)
  }

  /** The admission invariant at every lock release of every run. */
  lemma EveryRunKeepsTheInvariant(lim: Limits, steps: seq<Step>)
    ensures Inv(Reached(lim, steps), lim)
  {
    InitialInv(lim);
    RunKeepsInv(INITIAL, lim, steps);
  }

  /** No overtaking: whatever the interleaving, tasks start in the order they were created. */
  lemma NoOvertaking(lim: Limits, steps: seq<Step>, i: nat, j: nat)
    requires i < j < |Reached(lim, steps).launched|
    ensures var s := Reached(lim, steps);
      s.launched[i] in s.created && s.launched[j] in s.created &&
      IndexOf(s.created, s.launched[i]) < IndexOf(s.created, s.launched[j])
  {
    EveryRunKeepsTheInvariant(lim, steps);
    var s := Reached(lim, steps);
    SubsequenceOrder(s.launched, s.created, i, j);
  }

  predicate Raced(step: Step) {
    step.Create? && step.raced
  }

  /** Only a creation that races with shutdown can disturb the waiting line. */
  lemma StepKeepsWaitOrder(s: State, lim: Limits, step: Step)
    requires Inv(s, lim) && WaitOrder(s) && !Raced(step)
    ensures WaitOrder(Apply(s, lim, step))
  {
    StepKeepsInv(s, lim, step);
    hide Subsequence, NoDup, Accounts, Line, Places, Exclusive, Dispatch;
    match step
    case Create(req, now, fails, _) => if !s.shutdown { DispatchFrame(s, lim, now, fails); }
    case Tick(now, fails) => DispatchFrame(s, lim, now, fails);
    case WorkerRelease(id, now, fails) => ReleaseKeepsWaitOrder(s, lim, id, now, fails);
    case UserCancelQueued(id) => CancelKeepsWaitOrder(s, lim, id);
    case ShutdownDrain => DrainKeepsWaitOrder(s);
    case _ =>
  }

  lemma ReleaseKeepsWaitOrder(s: State, lim: Limits, id: TaskId, now: int, fails: set<TaskId>)
    requires Inv(s, lim) && WaitOrder(s)
    ensures WaitOrder(Release(s, lim, id, now, fails))
  {
    ReleaseKeepsInv(s, lim, id, now, fails);
    if id in s.handles && s.handles[id].worker == Returned {
      ReleaseSlot(s, lim, id);
      DispatchFrame(GiveSlotBack(s, id), lim, now, fails);
      hide Subsequence, Accounts, Line, Places, Exclusive;
    }
  }

  lemma CancelKeepsWaitOrder(s: State, lim: Limits, id: TaskId)
    requires Inv(s, lim) && WaitOrder(s)
    ensures WaitOrder(CancelQueued(s, id))
  {
    if id in s.handles && s.handles[id].state == QUEUED { CancelQueuedHistory(s, id); }
  }

  lemma DrainKeepsWaitOrder(s: State)
    requires StartOrder(s) && WaitOrder(s)
    ensures WaitOrder(Drain(s))
  {
    hide Subsequence;
    assert s.launched + [] == s.launched;
  }

  lemma {:induction false} RunKeepsWaitOrder(s: State, lim: Limits, steps: seq<Step>)
    requires Inv(s, lim) && WaitOrder(s) && forall k :: 0 <= k < |steps| ==> !Raced(steps[k])
    ensures WaitOrder(Run(s, lim, steps))
    decreases |steps|
  {
    if steps != [] {
      StepKeepsInv(s, lim, steps[0]);
      StepKeepsWaitOrder(s, lim, steps[0]);
      RunKeepsWaitOrder(Apply(s, lim, steps[0]), lim, steps[1..]);
    }
  }

  /** And everyone still waiting was created after everyone who has started: at every point before
      shutdown, and at every point of a run in which no creation races with it. */
  lemma WaitersCameLater(lim: Limits, steps: seq<Step>, i: nat, j: nat)
    requires !Reached(lim, steps).shutdown || forall k :: 0 <= k < |steps| ==> !Raced(steps[k])
    requires var s := Reached(lim, steps); i < j < |s.launched + s.queue|
    ensures var s := Reached(lim, steps); var order := s.launched + s.queue;
      order[i] in s.created && order[j] in s.created &&
      IndexOf(s.created, order[i]) < IndexOf(s.created, order[j])
  {
    EveryRunKeepsTheInvariant(lim, steps);
    var s := Reached(lim, steps);
    if s.shutdown {
      InitialInv(lim);
      assert INITIAL.launched + INITIAL.queue == [];
      RunKeepsWaitOrder(INITIAL, lim, steps);
    }
    SubsequenceOrder(s.launched + s.queue, s.created, i, j);
  }

  /** A racing creation that starts its task passes the waiting line exactly when there is one; that takes
      a slot left idle by a worker that failed to start. */
  lemma RacedStartOvertakesIff(s: State, lim: Limits, req: Request, now: int, fails: set<TaskId>)
    requires Inv(s, lim) && FreshRequest(s, req) && !s.shutdown
    requires CreateTask(s, lim, req, now, fails, true).1 == Launched
    ensures WaitOrder(CreateTask(s, lim, req, now, fails, true).0) <==> s.queue == []
    ensures s.queue != [] ==> !WorkConserving(s, lim)
  {
    var t := CreateTask(s, lim, req, now, fails, true).0;
    assert t.launched == s.launched + [req.id] && t.created == s.created + [req.id] && t.queue == s.queue;
    assert req.id !in s.created && |s.active| < lim.maxActive;
    hide CreateTask, Line, Places, Exclusive, FreshRequest;
    NewBeforeLine(s.launched, s.queue, s.created, req.id);
  }

  /** Started before the line, the newest task keeps the order exactly when there is no line. */
  lemma {:induction false} NewBeforeLine(launched: seq<TaskId>, queue: seq<TaskId>, created: seq<TaskId>, x: TaskId)
    requires Subsequence(launched + queue, created) && NoDup(created) && x !in created
    ensures Subsequence((launched + [x]) + queue, created + [x]) <==> queue == []
  {
    hide Subsequence, NoDup;
    var order, all := (launched + [x]) + queue, created + [x];
    if queue == [] {
      SubsequencePush(launched + queue, created, x);
      assert order == (launched + queue) + [x];
    } else {
      var i := |launched|;
      assert order[i] == x && order[i + 1] == queue[0];
      NoDupPush(created, x);
      assert all[|created|] == x;
      IndexOfUnique(all, |created|);
      if Subsequence(order, all) { SubsequenceOrder(order, all, i, i + 1); }
    }
  }

  /** A sequence with as many members as positions repeats nothing. */
  lemma {:induction false} FullCardinality(s: seq<TaskId>)
    ensures |set x | x in s| <= |s|
    ensures |set x | x in s| == |s| ==> NoDup(s)
  {
    if s != [] {
      var t, x := s[..|s| - 1], s[|s| - 1];
      FullCardinality(t);
      assert s == t + [x];
      assert (set y | y in s) == (set y | y in t) + {x};
      if x in t {
        assert (set y | y in s) == (set y | y in t);
      }
    }
  }

  /** Conservation: over any run, every created task is in exactly one of the three lists
      (started, waiting, never started), and in it exactly once. */
  lemma NothingLostOrDuplicated(lim: Limits, steps: seq<Step>)
    ensures var s := Reached(lim, steps);
      NoDup(s.launched + s.queue + s.dropped) &&
      (forall id :: id in s.created <==> id in s.launched + s.queue + s.dropped)
  {
    EveryRunKeepsTheInvariant(lim, steps);
    var s := Reached(lim, steps);
    var all := s.launched + s.queue + s.dropped;
    var created, members := set x | x in s.created, set x | x in all;
    NoDupCardinality(s.created);
    FullCardinality(all);
    forall id | id in s.created ensures id in members {
      assert id in s.launched + s.queue || id in s.dropped;
    }
    assert created <= members;
    SubsetFull(created, members);
    assert forall id :: id in all <==> id in members;
    assert forall id :: id in s.created <==> id in created;
  }

  // ------------------------------------------------ consequences of single steps

  /** A task gives its slot back only through its worker's last lock section after it was
      cleaned up, or when shutdown cancels and cleans it. */
  lemma SlotFreedOnlyAfterCleanup(s: State, lim: Limits, step: Step, id: TaskId)
    requires Inv(s, lim)
    requires id in s.active && id !in Apply(s, lim, step).active
    ensures id in s.handles && id in Apply(s, lim, step).handles
    ensures (step.WorkerRelease? && step.id == id && Terminal(s.handles[id].state) && s.handles[id].cleaned) ||
            (step.ShutdownSweep? && Apply(s, lim, step).handles[id].cleaned)
  {
    hide Bounded, Exclusive, History, Dispatch;
    match step
    case Create(req, now, fails, _) =>
      if FreshRequest(s, req) && !s.shutdown { DispatchKeepsSlots(s, lim, now, fails); }
    case Tick(now, fails) => DispatchKeepsSlots(s, lim, now, fails);
    case WorkerRelease(w, now, fails) =>
      if w in s.handles && s.handles[w].worker == Returned {
        ReleaseSlot(s, lim, w);
        DispatchKeepsSlots(GiveSlotBack(s, w), lim, now, fails);
      }
    case UserDelete(w) => DeleteHoldsNoSlot(s, lim, w);
    case _ =>
  }

  lemma {:induction false} AdmitKeepsSlots(s: State, lim: Limits, fails: set<TaskId>)
    requires QueueKnown(s)
    ensures s.active <= Admit(s, lim, fails).0.active
    decreases |s.queue|
  {
    if s.queue != [] && |s.active| < lim.maxActive {
      HeadKnown(s);
      if s.queue[0] !in fails { AdmitKeepsSlots(LaunchHead(s), lim, fails); }
    }
  }

  lemma DispatchKeepsSlots(s: State, lim: Limits, now: int, fails: set<TaskId>)
    requires Inv(s, lim)
    ensures s.active <= Dispatch(s, lim, now, fails).0.active
    ensures Dispatch(s, lim, now, fails).0.handles.Keys == s.handles.Keys
  {
    DispatchFrame(s, lim, now, fails);
    if !s.shutdown {
      ExpireKeepsInv(s, lim, now);
      AdmitKeepsSlots(Expire(s, lim, now), lim, fails);
    }
  }

  ghost predicate WorkConserving(s: State, lim: Limits) {
    !s.shutdown ==> s.queue == [] || |s.active| == lim.maxActive
  }

  predicate StartsNeverFail(step: Step) {
    ((step.Create? || step.Tick? || step.WorkerRelease?) ==> step.fails == {}) &&
    (step.UserResume? ==> step.canStart)
  }

  lemma {:induction false} AdmitSucceeds(s: State, lim: Limits)
    requires QueueKnown(s)
    ensures Admit(s, lim, {}).1
    decreases |s.queue|
  {
    if s.queue != [] && |s.active| < lim.maxActive {
      HeadKnown(s);
      AdmitSucceeds(LaunchHead(s), lim);
    }
  }

  lemma DispatchConserves(s: State, lim: Limits, now: int)
    requires Inv(s, lim)
    ensures WorkConserving(Dispatch(s, lim, now, {}).0, lim)
  {
    if !s.shutdown {
      ExpireKeepsInv(s, lim, now);
      AdmitSucceeds(Expire(s, lim, now), lim);
      DispatchOutcome(s, lim, now, {});
    }
  }

  lemma CreateConserves(s: State, lim: Limits, req: Request, now: int, raced: bool)
    requires Inv(s, lim) && FreshRequest(s, req)
    ensures WorkConserving(CreateTask(s, lim, req, now, {}, raced).0, lim)
  {
    if !s.shutdown {
      var e := Expire(s, lim, now);
      ExpireKeepsInv(s, lim, now);
      assert Dispatch(s, lim, now, {}) == Admit(e, lim, {});
      AdmitSucceeds(e, lim);
      AdmitKeepsInv(e, lim, {});
      hide Inv, Expire, Admit, Dispatch, ScheduleBusy, AgentBusy;
      assert WorkConserving(BeginShutdown(s), lim);
      assert Dispatch(s, lim, now, {}).1 && WorkConserving(Dispatch(s, lim, now, {}).0, lim);
    }
  }

  lemma CancelConserves(s: State, lim: Limits, id: TaskId)
    requires Inv(s, lim) && WorkConserving(s, lim)
    ensures WorkConserving(CancelQueued(s, id), lim)
  {
    if id in s.handles && s.handles[id].state == QUEUED { RemoveMember(s.queue, id); }
  }

  /** While worker threads start, no slot is ever left idle with a task waiting for it. */
  lemma StepConserves(s: State, lim: Limits, step: Step)
    requires Inv(s, lim) && WorkConserving(s, lim) && StartsNeverFail(step)
    ensures WorkConserving(Apply(s, lim, step), lim)
  {
    hide Bounded, Exclusive, History, Dispatch, CreateTask, CancelQueued;
    match step
    case Create(req, now, fails, raced) => if FreshRequest(s, req) { CreateConserves(s, lim, req, now, raced); }
    case Tick(now, fails) => DispatchConserves(s, lim, now);
    case WorkerRelease(w, now, fails) =>
      if w in s.handles && s.handles[w].worker == Returned {
        ReleaseSlot(s, lim, w);
        DispatchConserves(GiveSlotBack(s, w), lim, now);
      }
    case UserCancelQueued(id) => CancelConserves(s, lim, id);
    case UserDelete(id) => DeleteHoldsNoSlot(s, lim, id);
    case _ =>
  }

  lemma DeleteHoldsNoSlot(s: State, lim: Limits, id: TaskId)
    requires Inv(s, lim)
    ensures Delete(s, id).active == s.active
  {
  }

  lemma {:induction false} NoIdleSlot(s: State, lim: Limits, steps: seq<Step>)
    requires Inv(s, lim) && WorkConserving(s, lim)
    requires forall i :: 0 <= i < |steps| ==> StartsNeverFail(steps[i])
    ensures WorkConserving(Run(s, lim, steps), lim)
    decreases |steps|
  {
    if steps != [] {
      StepKeepsInv(s, lim, steps[0]);
      StepConserves(s, lim, steps[0]);
      NoIdleSlot(Apply(s, lim, steps[0]), lim, steps[1..]);
    }
  }

  // -------------------------------------------------------- what each answer means

  /** Some unfinished task belongs to the schedule that the request names. */
  ghost predicate OtherRunUnfinished(s: State, req: Request) {
    req.schedule.Some? &&
    exists id :: id in s.handles && s.handles[id].schedule == req.schedule &&
      s.handles[id].state != COMPLETED && s.handles[id].state != FAILED && s.handles[id].state != CANCELLED
  }

  /** Some task of the agent that the request names is unfinished, or its thread is still there. */
  ghost predicate AgentTaken(s: State, req: Request) {
    req.agent.Some? &&
    exists id :: id in s.handles && s.handles[id].agent == req.agent.value &&
      ((s.handles[id].state != COMPLETED && s.handles[id].state != FAILED && s.handles[id].state != CANCELLED) ||
       (s.handles[id].worker != NoThread && s.handles[id].worker != Exited))
  }

  ghost predicate Accepted(s: State, lim: Limits, req: Request) {
    !OtherRunUnfinished(s, req) && !(|s.active| >= lim.maxActive && |s.queue| >= lim.maxQueued) &&
    !AgentTaken(s, req) && req.wellFormed
  }

  /** Each answer of `create_task` after its dispatch, exactly when it is given. */
  ghost predicate Answered(s: State, lim: Limits, req: Request, fails: set<TaskId>, reply: Reply) {
    var full := |s.active| >= lim.maxActive && |s.queue| >= lim.maxQueued;
    reply != BusyShutdown &&
    (reply == BusySchedule <==> OtherRunUnfinished(s, req)) &&
    (reply == BusyFull <==> !OtherRunUnfinished(s, req) && full) &&
    (reply == AgentConflict <==> !OtherRunUnfinished(s, req) && !full && AgentTaken(s, req)) &&
    (reply == Malformed <==> !OtherRunUnfinished(s, req) && !full && !AgentTaken(s, req) && !req.wellFormed) &&
    (reply == Waiting <==> Accepted(s, lim, req) && |s.active| >= lim.maxActive) &&
    (reply == StartFailed <==> Accepted(s, lim, req) && |s.active| < lim.maxActive && req.id in fails) &&
    (reply == Launched <==> Accepted(s, lim, req) && |s.active| < lim.maxActive && req.id !in fails)
  }

  /** And what it leaves behind: a refusal nothing, else one new handle, in the line, in a slot or failed. */
  ghost predicate Entered(s: State, req: Request, t: State, reply: Reply) {
    if reply == Waiting || reply == StartFailed || reply == Launched then
      t.handles.Keys == s.handles.Keys + {req.id} && t.created == s.created + [req.id] && t.shutdown == s.shutdown &&
      (forall id :: id in s.handles ==> t.handles[id] == s.handles[id]) &&
      t.handles[req.id] ==
        Handle(if reply == Waiting then QUEUED else if reply == Launched then CREATED else FAILED, req.schedule,
               if req.agent.Some? then req.agent.value else req.freshAgent,
               if reply == Waiting then Some(req.queuedAt) else None,
               if reply == Launched then Working else NoThread, false) &&
      t.queue == (if reply == Waiting then s.queue + [req.id] else s.queue) &&
      t.active == (if reply == Launched then s.active + {req.id} else s.active) &&
      t.launched == (if reply == Launched then s.launched + [req.id] else s.launched)
    else t == s
  }

  lemma RegisterMeaning(s: State, lim: Limits, req: Request, fails: set<TaskId>)
    requires req.id !in s.handles
    ensures var (t, reply) := Register(s, lim, req, fails);
      Answered(s, lim, req, fails, reply) && Entered(s, req, t, reply)
  {
    BusyMeans(s, req);
    hide ScheduleBusy, AgentBusy, OtherRunUnfinished, AgentTaken;
    var (t, reply) := Register(s, lim, req, fails);
    assert Answered(s, lim, req, fails, reply) by { hide Enqueue, LaunchNew, FailNew; }
    hide Answered, Accepted, Enqueue, LaunchNew, FailNew, Entered;
    EnteredNew(s, req);
  }

  lemma EnteredNew(s: State, req: Request)
    requires req.id !in s.handles
    ensures Entered(s, req, Enqueue(s, req), Waiting)
    ensures Entered(s, req, LaunchNew(s, req), Launched)
    ensures Entered(s, req, FailNew(s, req), StartFailed)
    ensures forall r :: r in {BusySchedule, BusyFull, AgentConflict, Malformed} ==> Entered(s, req, s, r)
  {
  }

  lemma BusyMeans(s: State, req: Request)
    ensures ScheduleBusy(s.handles, req.schedule) <==> OtherRunUnfinished(s, req)
    ensures AgentBusy(s.handles, req.agent) <==> AgentTaken(s, req)
  {
  }

  /** `create_task`: refused outright in shutdown, ended by a dispatch that fails, else answered by what the tasks,
      the slots and the line are after that dispatch, which a racing shutdown leaves out. */
  lemma CreateMeaning(s: State, lim: Limits, req: Request, now: int, fails: set<TaskId>, raced: bool)
    requires Inv(s, lim) && FreshRequest(s, req)
    ensures var (t, reply) := CreateTask(s, lim, req, now, fails, raced);
      if s.shutdown then reply == BusyShutdown && t == s
      else if raced then
        var s1 := s.(shutdown := true); Answered(s1, lim, req, fails, reply) && Entered(s1, req, t, reply)
      else
        var (s1, ok) := Dispatch(s, lim, now, fails);
        if ok then Answered(s1, lim, req, fails, reply) && Entered(s1, req, t, reply)
        else reply == StartFailed && t == s1
  {
    assert QueueKnown(s);
    hide Answered, Entered, Register, Dispatch, Inv, Bounded, Places, Exclusive, History, QueueKnown;
    if !s.shutdown {
      var s1 := if raced then BeginShutdown(s) else Dispatch(s, lim, now, fails).0;
      DispatchFrame(s, lim, now, fails);
      assert req.id !in s1.handles;
      RegisterMeaning(s1, lim, req, fails);
    }
  }

  /** A newly created task starts at once only if nobody is left waiting, so a latecomer
      cannot slip past the line even when an earlier dispatch was cut short. */
  lemma StartsAtOnceOnlyWhenNobodyWaits(s: State, lim: Limits, req: Request, now: int, fails: set<TaskId>)
    requires Inv(s, lim) && FreshRequest(s, req)
    requires CreateTask(s, lim, req, now, fails, false).1 == Launched
    ensures CreateTask(s, lim, req, now, fails, false).0.queue == []
  {
    DispatchOutcome(s, lim, now, fails);
  }

  /** Once shutdown has begun, no step starts or admits another task. */
  lemma NothingStartsAfterShutdown(s: State, lim: Limits, step: Step)
    requires Inv(s, lim) && s.shutdown
    ensures var s' := Apply(s, lim, step);
      s'.shutdown && s'.launched == s.launched && s'.created == s.created && s'.active <= s.active
  {
  }

  /** So whatever happens once the event is set and every lock section that tested it before has ended, nobody is
      created or launched and no slot is taken. */
  lemma {:induction false} ShutdownIsFinal(s: State, lim: Limits, steps: seq<Step>)
    requires Inv(s, lim) && s.shutdown
    ensures var t := Run(s, lim, steps);
      t.shutdown && t.launched == s.launched && t.created == s.created && t.active <= s.active
    decreases |steps|
  {
    assert QueueKnown(s);
    hide Inv, Apply, QueueKnown;
    if steps != [] {
      StepKeepsInv(s, lim, steps[0]);
      NothingStartsAfterShutdown(s, lim, steps[0]);
      ShutdownIsFinal(Apply(s, lim, steps[0]), lim, steps[1..]);
    }
  }
}
