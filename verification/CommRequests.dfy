/** The schedule of callbacks behind nonblocking communicator operations: every item waits
    for its subrequests, then its callback runs; a request completes when nothing is left. */
module CommRequests {
  import opened FiniteLists

  type Req = nat
  type Sub = nat

  /** Addresses of callback functions. */
  type Fn = nat

  const NULL: Fn := 0
  const MAX_SUBREQ := 2

  datatype Item = Item(subs: seq<Sub>, retain: bool, callback: Fn)
  datatype Request = Request(schedule: seq<Item>, error: int)
  datatype Result = Success | BadParam

  /** One call of a callback: for which item, which function, the subrequests that had completed by then, and what it
      returned. */
  datatype Call = Call(item: nat, fn: Fn, seen: set<Sub>, rc: int)

  /** What has happened to a request: all items ever appended, how many of them are taken off, the calls made, and how
      often it was started, completed and cancelled. */
  datatype History = History(items: seq<Item>, done: nat, calls: seq<Call>, starts: nat, ends: nat, cancels: nat)

  /** The items with a callback among the first n, in order. */
  function Callbacks(items: seq<Item>, n: nat): seq<nat>
    requires n <= |items|
    ensures forall i | 0 <= i < |Callbacks(items, n)| :: Callbacks(items, n)[i] < n
  {
    if n == 0 then [] else Callbacks(items, n - 1) + if items[n - 1].callback != NULL then [n - 1] else []
  }

  /** The calls made are those of the first n items that have a callback, in the order of the items, and each was made
      when all subrequests of its item had completed. */
  ghost predicate LogOk(h: History, n: int)
  {
    && 0 <= n <= |h.items| && |h.calls| == |Callbacks(h.items, n)|
    && forall i | 0 <= i < |h.calls| :: CallOk(h.items, h.calls[i], Callbacks(h.items, n)[i])
  }

  ghost predicate CallOk(items: seq<Item>, call: Call, k: nat)
    requires k < |items|
  {
    call.item == k && call.fn == items[k].callback && AllFinished(items[k].subs, 0, call.seen)
  }

  /** The logs of all requests are right; those owing have the call of their last item still to make. */
  ghost predicate Logs(hist: map<Req, History>, owing: set<Req>)
  {
    forall x | x in hist :: LogOk(hist[x], hist[x].done - if x in owing then 1 else 0)
  }

  lemma LogsPut(hist: map<Req, History>, q: Req, h: History)
    requires Logs(hist, {}) && LogOk(h, h.done)
    ensures Logs(hist[q := h], {})
  {
    hide LogOk;
  }

  lemma LogsOwe(hist: map<Req, History>, q: Req, h: History)
    requires Logs(hist, {}) && LogOk(h, h.done - 1)
    ensures Logs(hist[q := h], {q})
  {
    hide LogOk;
  }

  lemma LogsPaid(hist: map<Req, History>, q: Req, h: History)
    requires Logs(hist, {q}) && LogOk(h, h.done)
    ensures Logs(hist[q := h], {})
  {
    hide LogOk;
  }

  lemma LogsAt(hist: map<Req, History>, q: Req, owing: set<Req>)
    requires Logs(hist, owing) && q in hist
    ensures LogOk(hist[q], hist[q].done - if q in owing then 1 else 0)
    ensures owing == {} ==> hist[q].done <= |hist[q].items|
  {
  }

  lemma {:induction false} CallbacksPrefix(items: seq<Item>, more: seq<Item>, n: nat)
    requires n <= |items| <= |more| && forall k | 0 <= k < n :: items[k] == more[k]
    ensures Callbacks(items, n) == Callbacks(more, n)
  {
    if n > 0 { CallbacksPrefix(items, more, n - 1); }
  }

  /** The schedule is the rest of the items, the first of them perhaps with some subrequests already taken off. */
  ghost predicate ReqOk(r: Request, h: History, finished: set<Sub>)
  {
    && h.done <= |h.items| && |r.schedule| == |h.items| - h.done
    && (forall j | 1 <= j < |r.schedule| :: r.schedule[j] == h.items[h.done + j])
    && (r.schedule != [] ==> Head(r.schedule[0], h.items[h.done], finished))
    && (forall k | 0 <= k < |h.items| :: Distinct(h.items[k].subs))
    && (forall k | 0 <= k < h.done :: AllFinished(h.items[k].subs, 0, finished))
  }

  ghost predicate AllFinished(subs: seq<Sub>, lo: nat, finished: set<Sub>)
  {
    forall i | lo <= i < |subs| :: subs[i] in finished
  }

  ghost predicate Head(now: Item, orig: Item, finished: set<Sub>)
  {
    && now.retain == orig.retain && now.callback == orig.callback && |now.subs| <= |orig.subs|
    && now.subs == orig.subs[..|now.subs|] && AllFinished(orig.subs, |now.subs|, finished)
  }

  /** Subrequest s, the i-th of item k, has been taken off. */
  ghost predicate Taken(r: Request, h: History, k: nat, i: nat)
    requires |r.schedule| == |h.items| - h.done
  {
    k < h.done || (k == h.done < |h.items| && i >= |r.schedule[0].subs|)
  }

  /** A subrequest has been freed exactly when it was taken off an item that does not retain it. */
  ghost predicate FreedOk(r: Request, h: History, freed: set<Sub>)
    requires |r.schedule| == |h.items| - h.done
  {
    forall k: nat, i: nat | k < |h.items| && i < |h.items[k].subs| :: FreedAt(r, h, freed, k, i)
  }

  ghost predicate FreedAt(r: Request, h: History, freed: set<Sub>, k: nat, i: nat)
    requires |r.schedule| == |h.items| - h.done && k < |h.items| && i < |h.items[k].subs|
  {
    h.items[k].subs[i] in freed <==> !h.items[k].retain && Taken(r, h, k, i)
  }

  /** Every subrequest belongs to one item of one request. */
  ghost predicate Owned(q: Req, h: History, owner: map<Sub, (Req, nat)>)
  {
    forall k: nat, i: nat | k < |h.items| && i < |h.items[k].subs| :: OwnedAt(q, h, owner, k, i)
  }

  ghost predicate OwnedAt(q: Req, h: History, owner: map<Sub, (Req, nat)>, k: nat, i: nat)
    requires k < |h.items| && i < |h.items[k].subs|
  {
    h.items[k].subs[i] in owner && owner[h.items[k].subs[i]] == (q, k)
  }

  /** Starts are matched by completions and cancellations, except for one while the request is active. */
  ghost predicate Balanced(h: History, active: bool)
  {
    h.starts == h.ends + h.cancels + if active then 1 else 0
  }

  /** An item behind all others. */
  function Scheduled(r: Request, item: Item): Request
  {
    r.(schedule := r.schedule + [item])
  }

  function Noted(h: History, item: Item): History
  {
    h.(items := h.items + [item])
  }

  /** Everything about one request. */
  ghost predicate RequestOk(q: Req, r: Request, h: History, finished: set<Sub>, freed: set<Sub>,
                            owner: map<Sub, (Req, nat)>, active: seq<Req>)
  {
    ReqOk(r, h, finished) && FreedOk(r, h, freed) && Owned(q, h, owner) && Balanced(h, q in active)
  }

  ghost predicate AllOk(reqs: map<Req, Request>, hist: map<Req, History>, finished: set<Sub>, freed: set<Sub>,
                        owner: map<Sub, (Req, nat)>, active: seq<Req>)
    requires hist.Keys == reqs.Keys
  {
    forall q | q in reqs :: RequestOk(q, reqs[q], hist[q], finished, freed, owner, active)
  }

  /** Only completed subrequests of some item are freed. */
  ghost predicate Issued(freed: set<Sub>, finished: set<Sub>, owner: map<Sub, (Req, nat)>, issued: nat)
  {
    (forall s | s in freed :: s in owner && s in finished) && forall s | s in owner :: s < issued
  }

  class Scheduler {
    var reqs: map<Req, Request>
    var active: seq<Req>
    var registered: bool          // the progress function is registered
    var finished: set<Sub>        // subrequests that have completed
    var freed: set<Sub>
    var cancelled: seq<Sub>       // subrequests cancelled so far
    var completed: seq<Req>       // completions so far
    var issued: nat               // subrequests made so far
    ghost var hist: map<Req, History>
    ghost var owner: map<Sub, (Req, nat)>

    /** Everything is right, the calls made included. */
    ghost predicate Valid()
      reads this
    {
      Sound() && Logs(hist, {})
    }

    /** Everything is right but for one call: that of the item last taken off request q. */
    ghost predicate Owing(q: Req)
      reads this
    {
      Sound() && Logs(hist, {q}) && q in hist && LastTaken(hist[q]) && LastItem(hist[q]).callback != NULL
    }

    ghost predicate Sound()
      reads this
    {
      && hist.Keys == reqs.Keys && Distinct(active) && (forall q | q in active :: q in reqs)
      && (active != [] ==> registered)
      && AllOk(reqs, hist, finished, freed, owner, active)
      && Issued(freed, finished, owner, issued)
    }

    constructor ()
      ensures Valid() && reqs == map[] && active == [] && !registered && freed == {} && finished == {}
      ensures issued == 0 && completed == [] && cancelled == []
    {
      reqs, active, registered, finished, freed, cancelled, completed, issued := map[], [], false, {}, {}, [], [], 0;
      hist, owner := map[], map[];
    }
  
    /** A fresh request with an empty schedule. */
    method NewRequest(q: Req)
      requires Valid() && q !in reqs && q !in active
      modifies this`reqs, this`hist
      ensures Valid() && reqs == old(reqs)[q := Request([], 0)] && hist == old(hist)[q := History([], 0, [], 0, 0, 0)]
    {
      hide RequestOk, Distinct, Logs, LogOk, Issued;
      NewOk(q, finished, freed, owner, active);
      LogsPut(hist, q, History([], 0, [], 0, 0, 0));
      reqs := reqs[q := Request([], 0)];
      hist := hist[q := History([], 0, [], 0, 0, 0)];
    }

    /** `ompi_comm_request_schedule_append_w_flags`: the item goes behind all others. */
    method Append(q: Req, subs: seq<Sub>, retain: bool, callback: Fn) returns (ret: Result)
      requires Valid() && q in reqs && Distinct(subs) && forall s | s in subs :: s !in owner && s < issued
      modifies this`reqs, this`hist, this`owner
      ensures Valid() && (ret == BadParam <==> |subs| > MAX_SUBREQ)
      ensures ret == BadParam ==> reqs == old(reqs) && hist == old(hist) && owner == old(owner)
      ensures ret == Success ==> reqs == old(reqs)[q := Scheduled(old(reqs)[q], Item(subs, retain, callback))]
      ensures ret == Success ==> hist == old(hist)[q := Noted(old(hist)[q], Item(subs, retain, callback))]
      ensures ret == Success ==> forall s :: s in owner <==> s in old(owner) || s in subs
    {
      if |subs| > MAX_SUBREQ { return BadParam; }
      AddItem(q, Item(subs, retain, callback));
      ret := Success;
    }

    method AddItem(q: Req, item: Item)
      requires Valid() && q in reqs && Distinct(item.subs) && forall s | s in item.subs :: s !in owner && s < issued
      modifies this`reqs, this`hist, this`owner
      ensures Valid() && reqs == old(reqs)[q := Scheduled(old(reqs)[q], item)]
      ensures hist == old(hist)[q := Noted(old(hist)[q], item)]
      ensures forall s :: s in owner <==> s in old(owner) || s in item.subs
    {
      hide AllOk, Distinct, Own, Scheduled, Noted, Issued, LogOk, Logs;
      ghost var who := (q, |hist[q].items|);
      AppendAll(reqs, hist, finished, freed, owner, active, issued, q, item);
      LogsAt(hist, q, {});
      LogNoted(hist[q], item, hist[q].done);
      LogsPut(hist, q, Noted(hist[q], item));
      OwnIssued(freed, finished, owner, issued, item.subs, who);
      reqs := reqs[q := Scheduled(reqs[q], item)];
      hist := hist[q := Noted(hist[q], item)];
      owner := Own(owner, item.subs, who);
    }

    /** A subrequest completes on its own. */
    method Finish(s: Sub)
      requires Valid()
      modifies this`finished
      ensures Valid() && finished == old(finished) + {s}
    {
      hide RequestOk, LogOk, Logs;
      forall q | q in reqs ensures RequestOk(q, reqs[q], hist[q], finished + {s}, freed, owner, active) {
        FinishOk(q, reqs[q], hist[q], finished, freed, owner, active, s);
      }
      finished := finished + {s};
    }

    /** `ompi_comm_request_start`. */
    method Start(q: Req)
      requires Valid() && q in reqs && q !in active
      modifies this`reqs, this`active, this`registered, this`hist
      ensures Valid() && active == old(active) + [q] && registered
      ensures reqs == old(reqs)[q := old(reqs)[q].(error := 0)]
          && hist == old(hist)[q := old(hist)[q].(starts := old(hist)[q].starts + 1)]
    {
      hide RequestOk, LogOk, Logs;
      LogsAt(hist, q, {});
      LogSame(hist[q], hist[q].(starts := hist[q].starts + 1), hist[q].done);
      LogsPut(hist, q, hist[q].(starts := hist[q].starts + 1));
      ghost var now := active + [q];
      forall x | x in reqs ensures RequestOk(x, if x == q then reqs[q].(error := 0) else reqs[x],
          if x == q then hist[q].(starts := hist[q].starts + 1) else hist[x], finished, freed, owner, now) {
        StartOk(x, reqs[x], hist[x], finished, freed, owner, active, q);
      }
      active := active + [q];
      if !registered { registered := true; }
      reqs := reqs[q := reqs[q].(error := 0)];
      hist := hist[q := hist[q].(starts := hist[q].starts + 1)];
    }
  
    /** `ompi_request_free` on a subrequest: only when it has completed, and only once. */
    method Free(s: Sub)
      requires s in finished && s !in freed
      modifies this`freed
      ensures freed == old(freed) + {s}
    {
      freed := freed + {s};
    }

    /** Take completed subrequests off an item from the end, freeing them unless the item retains them. */
    method Drain(item: Item) returns (left: Item, complete: bool)
      requires Distinct(item.subs) && (item.retain || forall i | 0 <= i < |item.subs| :: item.subs[i] !in freed)
      modifies this`freed
      ensures |left.subs| <= |item.subs| && left == item.(subs := item.subs[..|left.subs|])
      ensures AllFinished(item.subs, |left.subs|, finished) && (complete <==> left.subs == [])
      ensures !complete ==> left.subs[|left.subs| - 1] !in finished
      ensures freed == old(freed) + Off(item, |left.subs|)
    {
      left := item;
      complete := true;
      while |left.subs| > 0
        invariant |left.subs| <= |item.subs| && left == item.(subs := item.subs[..|left.subs|])
        invariant AllFinished(item.subs, |left.subs|, finished) && freed == old(freed) + Off(item, |left.subs|)
      {
        var s := left.subs[|left.subs| - 1];
        if s !in finished {
          complete := false;
          break;
        }
        NotYetOff(item, |left.subs|);
        if !left.retain { Free(s); }
        left := left.(subs := left.subs[..|left.subs| - 1]);
      }
    }

    /** The first item of a request: wait, or take it off the schedule. */
    method TakeItem(q: Req) returns (complete: bool, callback: Fn)
      requires Valid() && q in reqs && reqs[q].schedule != []
      modifies this`reqs, this`freed, this`hist
      ensures reqs.Keys == old(reqs).Keys && hist.Keys == old(hist).Keys
          && callback == old(reqs[q]).schedule[0].callback
      ensures if complete && callback != NULL then Owing(q) && callback == LastItem(hist[q]).callback else Valid()
      ensures forall x | x in reqs && x != q :: reqs[x] == old(reqs)[x] && hist[x] == old(hist)[x]
      ensures complete ==> reqs[q].schedule == old(reqs[q]).schedule[1..] && hist[q] == Fire(old(hist[q]))
      ensures !complete ==> reqs[q].schedule != [] && reqs[q].schedule[1..] == old(reqs[q]).schedule[1..]
      ensures !complete ==> hist[q] == old(hist[q]) && Trimmed(old(reqs[q]).schedule[0], reqs[q].schedule[0], finished)
      ensures complete <==> AllFinished(old(reqs[q]).schedule[0].subs, 0, finished)
      ensures freed == old(freed) + Off(old(reqs[q]).schedule[0], if complete then 0 else |reqs[q].schedule[0].subs|)
    {
      hide RequestOk, Fire, Off, AllFinished, Distinct, LogOk, Logs;
      var item := reqs[q].schedule[0];
      callback := item.callback;
      HeadFresh(q, reqs[q], hist[q], finished, freed, owner, active);
      LogsAt(hist, q, {});
      LogFire(hist[q]);
      LogsOwe(hist, q, Fire(hist[q]));
      if item.callback == NULL { LogsPut(hist, q, Fire(hist[q])); }
      var left;
      left, complete := Drain(item);
      DrainedAll(item, left, finished);
      forall x | x in reqs && x != q ensures RequestOk(x, reqs[x], hist[x], finished, freed, owner, active) {
        OthersKept(q, reqs[q], hist[q], x, reqs[x], hist[x], finished, old(freed), owner, active, |left.subs|);
      }
      DrainOk(q, reqs[q], hist[q], finished, old(freed), owner, active, left);
      OffOwned(q, reqs[q], hist[q], finished, old(freed), owner, active, |left.subs|);
      if complete {
        reqs := reqs[q := reqs[q].(schedule := reqs[q].schedule[1..])];
        hist := hist[q := Fire(hist[q])];
      } else {
        reqs := reqs[q := reqs[q].(schedule := [left] + reqs[q].schedule[1..])];
      }
    }
  
    /** The request at position i of the active list completes: its schedule is empty. */
    method Complete(i: nat, rc: int)
      requires Valid() && i < |active| && reqs[active[i]].schedule == []
      modifies this`reqs, this`active, this`completed, this`hist
      ensures Valid() && active == old(active)[..i] + old(active)[i + 1..]
          && completed == old(completed) + [old(active)[i]]
      ensures reqs == old(reqs)[old(active)[i] := Request([], rc)]
      ensures var q := old(active)[i]; hist == old(hist)[q := old(hist)[q].(ends := old(hist)[q].ends + 1)]
    {
      hide RequestOk, LogOk, Logs;
      var q := active[i];
      LogsAt(hist, q, {});
      LogSame(hist[q], hist[q].(ends := hist[q].ends + 1), hist[q].done);
      LogsPut(hist, q, hist[q].(ends := hist[q].ends + 1));
      ghost var now := active[..i] + active[i + 1..];
      Removed(active, i);
      forall x | x in reqs ensures RequestOk(x, if x == q then Request([], rc) else reqs[x],
          if x == q then hist[q].(ends := hist[q].ends + 1) else hist[x], finished, freed, owner, now) {
        CompleteOk(x, reqs[x], hist[x], finished, freed, owner, active, now, q, rc);
      }
      active := active[..i] + active[i + 1..];
      reqs := reqs[q := Request([], rc)];
      hist := hist[q := hist[q].(ends := hist[q].ends + 1)];
      completed := completed + [q];
    }

    /** The call of a callback, which is logged, and what the callback may do.  At most starts requests are started. */
    method Callback(q: Req, fn: Fn, starts: nat) returns (rc: int, left: nat)
      requires Owing(q) && fn == LastItem(hist[q]).callback
      modifies this`reqs, this`active, this`registered, this`finished, this`issued, this`hist, this`owner
      ensures Valid() && left <= starts && |old(active)| <= |active| && active[..|old(active)|] == old(active)
      ensures |active| + left <= |old(active)| + starts
      ensures forall x | x in old(hist) ::
        x in hist && Grown(if x == q then Logged(old(hist)[q], fn, old(finished), rc) else old(hist)[x], hist[x])
      ensures finished >= old(finished) && freed == old(freed)
          && registered == (old(registered) || active != old(active))
      ensures forall x | x in old(reqs) :: x in reqs && Extended(x == q, old(reqs)[x], reqs[x])
    {
      rc := *;
      left := starts;
      hide RequestOk, Grown, LogOk, Logs, LastItem, Logged, Issued, Distinct, Extended;
      LogsAt(hist, q, {q});
      LogCall(q, reqs[q], hist[q], finished, freed, owner, active, rc);
      LogsPaid(hist, q, Logged(hist[q], fn, finished, rc));
      hist := hist[q := Logged(hist[q], fn, finished, rc)];
      ghost var was := hist;
      forall x | x in hist ensures Grown(hist[x], hist[x]) { GrownSelf(hist[x]); }
      forall x | x in reqs ensures Extended(x == q, reqs[x], reqs[x]) { ExtendedSelf(x == q, reqs[x]); }
      assert active[..|active|] == active;
      hide AllOk;
      var steps: int := *;
      var step := 0;
      while step < steps
        invariant Valid() && q in reqs
        invariant left <= starts && |old(active)| <= |active| && active[..|old(active)|] == old(active)
        invariant |active| + left <= |old(active)| + starts
        invariant forall x | x in was :: x in hist && Grown(was[x], hist[x])
        invariant freed == old(freed) && registered == (old(registered) || active != old(active))
        invariant finished >= old(finished)
        invariant forall x | x in old(reqs) :: x in reqs && Extended(x == q, old(reqs)[x], reqs[x])
      {
        ghost var before, list, rs := hist, active, reqs;
        left := Act(q, left);
        forall x | x in old(reqs) ensures x in reqs && Extended(x == q, old(reqs)[x], reqs[x]) {
          ExtendedMore(x == q, old(reqs)[x], rs[x], reqs[x]);
        }
        assert active[..|old(active)|] == active[..|list|][..|old(active)|];
        forall x | x in was ensures x in hist && Grown(was[x], hist[x]) { GrownMore(was[x], before[x], hist[x]); }
        step := step + 1;
      }
    }

    /** One action of a callback: append to its own request, start another, or make one; meanwhile subrequests may
        complete. */
    method Act(q: Req, starts: nat) returns (left: nat)
      requires Valid() && q in reqs
      modifies this`reqs, this`active, this`registered, this`finished, this`issued, this`hist, this`owner
      ensures Valid() && q in reqs && left <= starts && |old(active)| <= |active|
          && active[..|old(active)|] == old(active)
      ensures |active| + left <= |old(active)| + starts
      ensures forall x | x in old(hist) :: x in hist && Grown(old(hist)[x], hist[x])
      ensures registered == (old(registered) || active != old(active)) && finished >= old(finished)
      ensures forall x | x in old(reqs) :: x in reqs && Extended(x == q, old(reqs)[x], reqs[x])
    {
      hide AllOk, Distinct, Grown, LogOk, Logs, Issued, Noted;
      left := starts;
      forall x | x in hist ensures Grown(hist[x], hist[x]) { GrownSelf(hist[x]); }
      assert active[..|active|] == active;
      var choice: int := *;
      var x: nat, retain: bool, callback: Fn := *, *, *;
      if choice == 0 {
        var subs := NewSubs(x);
        GrownItem(hist[q], hist[q], Item(subs, retain, callback));
        var ret := Append(q, subs, retain, callback);
      } else if choice == 1 {
        if x in reqs && x !in active && left > 0 {
          GrownStart(hist[x], hist[x]);
          Start(x);
          left := left - 1;
        }
      } else if choice == 2 {
        if x !in reqs && x !in active { NewRequest(x); }
      } else {
        Finish(x);
      }
    }

    /** New subrequests, numbered as they are made. */
    method NewSubs(count: int) returns (subs: seq<Sub>)
      requires Valid()
      modifies this`issued
      ensures Valid() && issued >= old(issued) && Distinct(subs) && forall s | s in subs :: s !in owner && s < issued
    {
      subs := [];
      while |subs| < count
        invariant issued == old(issued) + |subs| && forall i | 0 <= i < |subs| :: subs[i] == old(issued) + i
      {
        subs := subs + [issued];
        issued := issued + 1;
      }
      forall s | s in subs ensures s !in owner && s < issued {
        var i :| 0 <= i < |subs| && subs[i] == s;
      }
    }
  
    /** Cancel the subrequests an item still waits for, first to last. */
    method CancelItem(item: Item)
      modifies this`cancelled
      ensures cancelled == old(cancelled) + item.subs
    {
      for i := 0 to |item.subs|
        invariant cancelled == old(cancelled) + item.subs[..i]
      {
        cancelled := cancelled + [item.subs[i]];
      }
    }

    method CancelSchedule(schedule: seq<Item>)
      modifies this`cancelled
      ensures cancelled == old(cancelled) + Awaited(schedule)
    {
      var rest := schedule;
      while rest != []
        invariant cancelled + Awaited(rest) == old(cancelled) + Awaited(schedule)
      {
        CancelItem(rest[0]);
        rest := rest[1..];
      }
    }

    /** `ompi_comm_request_cancel`: the subrequests still waited for are cancelled in schedule order, the rest of the
        schedule is dropped, and the request leaves the active list without completing. */
    method Cancel(q: Req)
      requires Valid() && q in reqs
      modifies this`reqs, this`active, this`hist, this`cancelled
      ensures Valid() && reqs == old(reqs)[q := old(reqs)[q].(schedule := [])]
      ensures cancelled == old(cancelled) + Awaited(old(reqs)[q].schedule)
      ensures q !in active && forall x :: x in active <==> x in old(active) && x != q
      ensures hist[q].done == old(hist)[q].done && hist[q].calls == old(hist)[q].calls
          && hist[q].ends == old(hist)[q].ends
    {
      hide RequestOk, Distinct, LogOk, Logs;
      CancelSchedule(reqs[q].schedule);
      var i := 0;
      while i < |active| && active[i] != q
        invariant 0 <= i <= |active| && forall j | 0 <= j < i :: active[j] != q
      {
        i := i + 1;
      }
      var now := active;
      if i < |active| {
        Removed(active, i);
        now := active[..i] + active[i + 1..];
      }
      LogsAt(hist, q, {});
      ghost var h := hist[q];
      ghost var stop := h.(items := h.items[..h.done], cancels := h.cancels + if q in active then 1 else 0);
      forall x | x in reqs
        ensures RequestOk(x, if x == q then reqs[q].(schedule := []) else reqs[x], if x == q then stop
            else hist[x], finished, freed, owner, now)
      {
        CancelOk(x, reqs[x], hist[x], finished, freed, owner, active, now, q);
      }
      LogStop(h, stop);
      LogsPut(hist, q, stop);
      reqs := reqs[q := reqs[q].(schedule := [])];
      active := now;
      hist := hist[q := stop];
    }

    /** `ompi_comm_request_progress`: one item of every active request is tried; what completes leaves the list.  The
        callbacks together start at most starts requests.  The requests that had a turn,
            and whether each was the last of
        the list then: the pass ends with the first that was. */
    method Progress(starts: nat) returns (ghost turns: seq<(Req, bool)>)
      requires Valid()
      modifies this
      ensures (turns == [] <==> old(active) == []) && forall t | 0 <= t < |turns| :: turns[t].1 <==> t + 1 == |turns|
      ensures |old(active)| <= |turns| && forall t | 0 <= t < |old(active)| :: turns[t].0 == old(active)[t]
      ensures Valid() && (active == [] ==> !registered) && finished >= old(finished)
      ensures |completed| >= |old(completed)| && completed[..|old(completed)|] == old(completed)
      ensures forall x | x in old(hist) :: x in hist && Advanced(old(hist)[x], hist[x])
      ensures forall x | x in old(active) :: Over(x, State(old(reqs), old(hist), old(finished)),
                  State(reqs, hist, finished), active, completed[|old(completed)|..])
    {
      hide RequestOk, Distinct, LogOk, Logs, AllOk, Issued, Advanced, Over, Underway, Turn;
      var i: nat, left: nat := 0, starts;
      ghost var p: nat, from, all := 0, State(reqs, hist, finished), active;
      assert completed[..|completed|] == completed && completed[|completed|..] == [];
      Begin(active, from);
      turns := [];
      while i < |active|
        invariant Valid() && 0 <= i <= |active|
        invariant |completed| >= |old(completed)| && completed[..|old(completed)|] == old(completed)
        invariant Underway(all, p, i, active, from, State(reqs, hist, finished), completed[|old(completed)|..])
        invariant (i == |active| ==> p == |all|) && p <= |all| && p <= |turns| && (p < |all| ==> |turns| == p)
        invariant (forall t | 0 <= t < |turns| :: !turns[t].1) && forall t | 0 <= t < p :: turns[t].0 == all[t]
        invariant if turns == [] then active == old(active) else old(active) != []
        invariant i == |active| ==> active == [] && turns == []
        decreases 2 * left + |active| - i
      {
        var last := i + 1 == |active|;
        ghost var at, list, was, ended := i, active, State(reqs, hist, finished), completed[|old(completed)|..];
        var removed;
        removed, left := Step(i, left);
        TurnShape(list, at, was, State(reqs, hist, finished), active, removed);
        if !removed { i := i + 1; }
        p := Onward(all, p, at, list, from, was, State(reqs, hist, finished), active, ended, removed);
        assert completed[|old(completed)|..] == if removed then ended + [list[at]] else ended;
        turns := turns + [(list[at], last)];
        if last { break; }
      }
      Finished(all, i, active, from, State(reqs, hist, finished), completed[|old(completed)|..]);
      if |active| == 0 { registered := false; }
    }

    /** One active request: try its first item, complete if nothing is left. */
    method Step(i: nat, starts: nat) returns (removed: bool, left: nat)
      requires Valid() && i < |active|
      modifies this
      ensures Valid() && left <= starts
      ensures 2 * left + |active| + (if removed then 1 else 0) <= 2 * starts + |old(active)|
      ensures completed == if removed then old(completed) + [old(active)[i]] else old(completed)
      ensures Turn(old(active), i, State(old(reqs), old(hist), old(finished)), State(reqs, hist, finished), active,
          removed)
      ensures freed == old(freed) + AllGone(old(reqs)[old(active)[i]], reqs[old(active)[i]], old(finished))
    {
      hide RequestOk, Distinct, Advanced, Logs, Tried, Same, Issued, Before, Stepped, GoneFrom;
      var q := active[i];
      var rc := 0;
      left := starts;
      assert active[..|active|] == active;
      forall x | x in hist ensures Advanced(hist[x], hist[x]) { AdvancedSelf(hist[x]); }
      forall x | x in reqs ensures Same(reqs[x], hist[x], reqs[x], hist[x]) { SameSelf(reqs[x], hist[x]); }
      if |reqs[q].schedule| > 0 {
        rc, left := TryItem(q, starts);
        assert active[i] == active[..|old(active)|][i];
      }
      removed := |reqs[q].schedule| == 0;
      ghost var mid, list, rs := hist, active, reqs;
      if removed {
        Complete(i, rc);
        forall x | x in old(hist) ensures Advanced(old(hist)[x], hist[x]) { EndAdvances(old(hist)[x], mid[x]); }
        assert list[..|old(active)|] == old(active);
        DropAt(list, i, |old(active)|);
      }
      SteppedNow(old(reqs)[q], old(hist)[q], rs[q], mid[q], reqs[q], hist[q], old(finished), removed);
      ghost var was, now := State(old(reqs), old(hist), old(finished)), State(reqs, hist, finished);
      forall x | x in was.reqs && x != q ensures Before(x, was, now) { BeforeIs(x, was, now); }
      forall x | x in was.hist ensures Moved(x, was, now) { }
    }

    /** The first item of request q: when its subrequests have completed it is taken off and its callback is called. */
    method TryItem(q: Req, starts: nat) returns (rc: int, left: nat)
      requires Valid() && q in reqs && reqs[q].schedule != []
      modifies this`reqs, this`active, this`registered, this`finished, this`freed, this`issued, this`hist, this`owner
      ensures Valid() && left <= starts && |old(active)| <= |active| && active[..|old(active)|] == old(active)
      ensures |active| + left <= |old(active)| + starts && finished >= old(finished)
      ensures forall x | x in old(hist) :: x in hist && Advanced(old(hist)[x], hist[x])
      ensures q in old(hist) && q in reqs && q in hist
          && Tried(old(reqs)[q], old(hist)[q], reqs[q], hist[q], old(finished)) && hist[q].ends == old(hist)[q].ends
      ensures Returned(old(hist)[q], hist[q]) == rc
      ensures freed == old(freed) + GoneFrom(old(reqs)[q].schedule[0], reqs[q], old(finished))
      ensures forall x | x in old(reqs) && x != q ::
          x in old(hist) && x in reqs && x in hist && Same(old(reqs)[x], old(hist)[x], reqs[x], hist[x])
    {
      hide RequestOk, Distinct, Fire, Grown, Advanced, Logs, Logged, LastItem, Issued, Extended, Trimmed, AllFinished,
          Off;
      rc, left := 0, starts;
      Waiting(q, reqs[q], hist[q], finished, freed, owner, active);
      assert active[..|active|] == active;
      var complete, callback := TakeItem(q);
      ghost var mid, seen, rs := hist, finished, reqs;
      forall x | x in old(hist) ensures Advanced(old(hist)[x], mid[x]) {
        AdvancedSelf(old(hist)[x]);
        if x == q && complete { FireAdvances(old(hist)[x]); }
      }
      if complete && callback != NULL {
        rc, left := Callback(q, callback, starts);
        forall x | x in old(hist) ensures Advanced(old(hist)[x], hist[x]) {
          LoggedAdvances(old(hist)[x], mid[x], callback, seen, rc);
          GrownAdvances(old(hist)[x], if x == q then Logged(mid[q], callback, seen, rc) else mid[x], hist[x]);
        }
        CalledTried(old(reqs)[q], old(hist)[q], rs[q], reqs[q], hist[q], callback, seen, rc);
        forall x | x in old(reqs) && x != q ensures Same(old(reqs)[x], old(hist)[x], reqs[x], hist[x]) {
          GrownSame(old(reqs)[x], old(hist)[x], reqs[x], hist[x]);
        }
      } else {
        UncalledTried(old(reqs)[q], old(hist)[q], reqs[q], hist[q], finished, complete);
      }
    }
  }

  /** The requests, their histories and the subrequests that have completed, at one moment. */
  datatype State = State(reqs: map<Req, Request>, hist: map<Req, History>, finished: set<Sub>)

  /** What a pass has done to a request that was active when it began.  With nothing left to do the request has
      completed, else it is still active.  A first item whose subrequests had all completed has been taken off and its
      callback was called; one that still waits has lost exactly the completed subrequests at its end. */
  ghost predicate Passed(r: Request, h: History, r2: Request, h2: History, before: set<Sub>, now: set<Sub>,
                         active: bool,
                         completed: bool)
  {
    && (h2.ends == h.ends ==> active && r2.schedule != []) && (h2.ends != h.ends ==> completed)
    && (r.schedule == [] ==> h2.ends > h.ends)
    && (r.schedule != [] && AllFinished(r.schedule[0].subs, 0, before) ==> h2.done > h.done)
    && (r.schedule != [] && AllFinished(r.schedule[0].subs, 0, before) && r.schedule[0].callback != NULL ==>
          |h2.calls| > |h.calls|)
    && (r.schedule != [] && !AllFinished(r.schedule[0].subs, 0, now) ==>
          h2.done == h.done && h2.ends == h.ends && r2.schedule != []
              && Waits(r.schedule[0], r2.schedule[0], before, now))
  }

  ghost predicate Waits(item: Item, left: Item, before: set<Sub>, now: set<Sub>)
  {
    exists finished :: before <= finished <= now && Trimmed(item, left, finished)
  }

  ghost predicate Over(x: Req, from: State, to: State, active: seq<Req>, completed: seq<Req>)
  {
    && x in from.reqs && x in from.hist && x in to.reqs && x in to.hist
    && Passed(from.reqs[x], from.hist[x], to.reqs[x], to.hist[x], from.finished, to.finished, x in active,
       x in completed)
  }

  ghost predicate Before(x: Req, from: State, to: State)
  {
    && x in from.reqs && x in from.hist && x in to.reqs && x in to.hist
    && Same(from.reqs[x], from.hist[x], to.reqs[x], to.hist[x])
  }

  lemma FinishedMore(subs: seq<Sub>, lo: nat, a: set<Sub>, b: set<Sub>)
    requires a <= b && AllFinished(subs, lo, a)
    ensures AllFinished(subs, lo, b)
  {
  }

  lemma WaitsOn(item: Item, left: Item, before: set<Sub>, was: set<Sub>, now: set<Sub>)
    requires was <= now && Waits(item, left, before, was)
    ensures Waits(item, left, before, now)
  {
    hide Trimmed;
    var finished :| before <= finished <= was && Trimmed(item, left, finished);
    assert before <= finished <= now && Trimmed(item, left, finished);
  }

  /** The request whose turn it is. */
  lemma PassedNow(r: Request, h: History, rw: Request, hw: History, r2: Request, h2: History, before: set<Sub>,
                  was: set<Sub>, now: set<Sub>, removed: bool)
    requires Same(r, h, rw, hw) && Stepped(rw, hw, r2, h2, was, removed) && before <= was <= now
    ensures Passed(r, h, r2, h2, before, now, !removed, removed)
  {
    hide Trimmed, AllFinished;
    if r.schedule != [] {
      if AllFinished(r.schedule[0].subs, 0, before) { FinishedMore(r.schedule[0].subs, 0, before, was); }
      if AllFinished(r.schedule[0].subs, 0, was) {
        FinishedMore(r.schedule[0].subs, 0, was, now);
      } else {
        assert before <= was <= now && Trimmed(r.schedule[0], r2.schedule[0], was);
      }
    }
  }

  /** The requests that have had their turn: nothing is done to them, or they were started again and get another one. */
  lemma PassedKept(r: Request, h: History, rw: Request, hw: History, r2: Request, h2: History, before: set<Sub>,
                   was: set<Sub>, now: set<Sub>, wasActive: bool, active: bool, wasEnded: bool, ended: bool)
    requires Passed(r, h, rw, hw, before, was, wasActive, wasEnded) && before <= was <= now
    requires Advanced(h, hw) && Advanced(hw, h2)
    requires if wasActive then active && Same(rw, hw, r2, h2) else true
    requires wasEnded ==> ended
    ensures Passed(r, h, r2, h2, before, now, active, ended)
  {
    hide Trimmed, AllFinished, Waits;
    if r.schedule != [] && !AllFinished(r.schedule[0].subs, 0, now) {
      if AllFinished(r.schedule[0].subs, 0, was) { FinishedMore(r.schedule[0].subs, 0, was, now); }
      WaitsOn(r.schedule[0], rw.schedule[0], before, was, now);
    }
  }

  lemma OverMore(x: Req, from: State, to: State, active: seq<Req>, more: seq<Req>, completed: seq<Req>)
    requires Over(x, from, to, active, completed) && (x in active ==> x in more)
    ensures Over(x, from, to, more, completed)
  {
    hide Waits, AllFinished;
  }

  /** One step at position i of the active list: it was the turn of that request, and nothing was done to the others. */
  ghost predicate Turn(list: seq<Req>, i: nat, was: State, now: State, active: seq<Req>, removed: bool)
  {
    && i < |list| && TurnOf(list[i], was, now, removed) && was.finished <= now.finished
    && (forall x | x in was.reqs && x != list[i] :: Before(x, was, now))
       && (forall x | x in was.hist :: Moved(x, was, now))
    && (if removed then |active| >= |list| - 1 && active[..|list| - 1] == list[..i] + list[i + 1..]
        else |active| >= |list| && active[..|list|] == list)
  }

  lemma TurnShape(list: seq<Req>, i: nat, was: State, now: State, active: seq<Req>, removed: bool)
    requires Turn(list, i, was, now, active, removed)
    ensures i < |list| && |active| >= (if removed then |list| - 1 else |list|)
    ensures list[i] in was.reqs && list[i] in was.hist
  {
  }

  /** The pass has reached position i: the first p of the requests active when it began have had their turn, the others
      are next in the list, and nothing was done to them. */
  ghost predicate Underway(all: seq<Req>, p: nat, i: nat, active: seq<Req>, from: State, now: State, ended: seq<Req>)
  {
    && p <= |all| && Distinct(all) && i <= |active| && i + |all| - p <= |active| && all[p..] == active[i..i + |all| - p]
    && from.finished <= now.finished && (forall x | x in from.hist :: Moved(x, from, now))
    && (forall j: nat | j < |all| :: all[j] in from.hist && all[j] in from.reqs)
    && (forall j: nat | j < p :: Over(all[j], from, now, active[..i], ended))
    && (forall j: nat | p <= j < |all| :: Before(all[j], from, now))
  }

  lemma Begin(active: seq<Req>, from: State)
    requires Distinct(active) && forall x | x in active :: x in from.reqs && x in from.hist
    ensures Underway(active, 0, 0, active, from, from, [])
  {
    assert active[0..] == active[0..|active|];
    forall j: nat | j < |active|
      ensures Before(active[j], from, from)
    {
      assert active[j] in active; BeforeSelf(active[j], from);
    }
    forall x | x in from.hist ensures Moved(x, from, from) { AdvancedSelf(from.hist[x]); }
  }

  lemma Finished(all: seq<Req>, i: nat, active: seq<Req>, from: State, now: State, ended: seq<Req>)
    requires Underway(all, |all|, i, active, from, now, ended)
    ensures forall x | x in all :: Over(x, from, now, active, ended)
    ensures from.finished <= now.finished
        && forall x | x in from.hist :: x in now.hist && Advanced(from.hist[x], now.hist[x])
  {
    hide Over, Advanced;
    forall x | x in all ensures Over(x, from, now, active, ended) {
      var j :| 0 <= j < |all| && all[j] == x;
      OverMore(x, from, now, active[..i], active, ended);
    }
    forall x | x in from.hist
      ensures x in now.hist && Advanced(from.hist[x], now.hist[x])
    {
      assert Moved(x, from, now);
    }
  }

  /** One turn of the loop: the step at position i was the turn of the next request that was active when the pass began,
      or that of one started since. */
  lemma Onward(all: seq<Req>, p: nat, i: nat, list: seq<Req>, from: State, was: State, now: State, active: seq<Req>,
               ended: seq<Req>, removed: bool) returns (next: nat)
    requires Distinct(list) && i < |list| && Underway(all, p, i, list, from, was, ended)
        && Turn(list, i, was, now, active, removed)
    ensures var k, more := if removed then i else i + 1, if removed then ended + [list[i]] else ended;
      Underway(all, next, k, active, from, now, more) && (k == |active| || i + 1 == |list| ==> next == |all|)
    ensures next == (if p < |all| then p + 1 else p) && p <= |all| && (p < |all| ==> all[p] == list[i])
  {
    hide Stepped, Over, Before, Advanced;
    var k, more := if removed then i else i + 1, if removed then ended + [list[i]] else ended;
    next := if p < |all| then p + 1 else p;
    Shifted(all, p, i, list, active, removed);
    forall x | x in from.hist ensures Moved(x, from, now) {
      assert Moved(x, from, was) && Moved(x, was, now);
      AdvancedMore(from.hist[x], was.hist[x], now.hist[x]);
    }
    forall j: nat | j < p ensures Over(all[j], from, now, active[..k], more) {
      assert Moved(all[j], from, was);
      OverIn(all[j], from, was, list[..i], ended);
      if all[j] != list[i] { BeforeIn(all[j], was, now); }
      OverKept(all[j], from, was, now, list, i, active[..k], ended, more);
    }
    if p < |all| { OverNow(list[i], from, was, now, active[..k], more, removed); }
    forall j: nat | next <= j < |all| ensures Before(all[j], from, now) {
      BeforeIn(all[j], from, was);
      assert all[j] != all[p];
      BeforeMore(all[j], from, was, now);
    }
  }

  /** Where the remaining requests stand after a step. */
  lemma Shifted(all: seq<Req>, p: nat, i: nat, list: seq<Req>, active: seq<Req>, removed: bool)
    requires i < |list| && p <= |all| && i + |all| - p <= |list| && all[p..] == list[i..i + |all| - p]
    requires if removed then |active| >= |list| - 1 && active[..|list| - 1] == list[..i] + list[i + 1..]
             else |active| >= |list| && active[..|list|] == list
    ensures var k, next := if removed then i else i + 1, if p < |all| then p + 1 else p;
      && k + |all| - next <= |active| && all[next..] == active[k..k + |all| - next]
      && (forall x | x in list[..i] :: x in active[..k]) && (!removed ==> list[i] in active[..k])
      && (k == |active| || i + 1 == |list| ==> next == |all|) && (p < |all| ==> all[p] == list[i])
  {
    var k, next := if removed then i else i + 1, if p < |all| then p + 1 else p;
    assert p < |all| ==> all[p..][0] == list[i..i + |all| - p][0];
    assert p < |all| ==> all[next..] == all[p..][1..];
    if removed {
      assert active[..i] == active[..|list| - 1][..i];
      assert (list[..i] + list[i + 1..])[..i] == list[..i];
      if p < |all| {
        assert active[k..k + |all| - next] == active[..|list| - 1][k..k + |all| - next];
        assert (list[..i] + list[i + 1..])[k..k + |all| - next] == list[i + 1..i + |all| - p];
        assert list[i..i + |all| - p][1..] == list[i + 1..i + |all| - p];
      }
      assert p == |all| ==> active[k..k] == [];
    } else {
      assert active[..k] == active[..|list|][..k] == list[..i] + [list[i]];
      if p < |all| {
        assert active[k..k + |all| - next] == active[..|list|][k..k + |all| - next];
        assert list[i..i + |all| - p][1..] == list[i + 1..i + |all| - p];
      }
    }
  }

  lemma OverIn(x: Req, from: State, to: State, active: seq<Req>, completed: seq<Req>)
    requires Over(x, from, to, active, completed)
    ensures x in to.reqs && x in to.hist
  {
  }

  lemma BeforeIn(x: Req, from: State, to: State)
    requires Before(x, from, to)
    ensures x in to.reqs && x in to.hist
  {
  }

  ghost predicate TurnOf(q: Req, was: State, now: State, removed: bool)
  {
    && q in was.reqs && q in was.hist && q in now.reqs && q in now.hist
    && Stepped(was.reqs[q], was.hist[q], now.reqs[q], now.hist[q], was.finished, removed)
  }

  ghost predicate Moved(x: Req, from: State, to: State)
  {
    x in from.hist && x in to.hist && Advanced(from.hist[x], to.hist[x])
  }

  lemma OverKept(x: Req, from: State, was: State, now: State, list: seq<Req>, i: nat, prefix: seq<Req>, ended: seq<Req>,
                 more: seq<Req>)
    requires Distinct(list) && i < |list| && Over(x, from, was, list[..i], ended)
        && from.finished <= was.finished <= now.finished
    requires Moved(x, from, was) && Moved(x, was, now) && x in now.reqs
    requires x != list[i] ==> Before(x, was, now)
    requires (x in list[..i] ==> x in prefix) && (x in ended ==> x in more)
    ensures Over(x, from, now, prefix, more)
  {
    hide Same, Advanced;
    if x in list[..i] {
      var j :| 0 <= j < i && list[..i][j] == x;
      assert list[j] == x;
    }
    PassedKept(from.reqs[x], from.hist[x], was.reqs[x], was.hist[x], now.reqs[x], now.hist[x], from.finished,
               was.finished, now.finished, x in list[..i], x in prefix, x in ended, x in more);
  }

  lemma OverNow(q: Req, from: State, was: State, now: State, prefix: seq<Req>, more: seq<Req>, removed: bool)
    requires Before(q, from, was) && TurnOf(q, was, now, removed) && from.finished <= was.finished <= now.finished
    requires (!removed ==> q in prefix) && (removed ==> q in more)
    ensures Over(q, from, now, prefix, more)
  {
    hide Stepped, Same, Waits, AllFinished;
    PassedNow(from.reqs[q], from.hist[q], was.reqs[q], was.hist[q], now.reqs[q], now.hist[q], from.finished,
              was.finished, now.finished, removed);
  }

  lemma BeforeMore(x: Req, from: State, was: State, now: State)
    requires Before(x, from, was) && Before(x, was, now)
    ensures Before(x, from, now)
  {
  }

  lemma BeforeIs(x: Req, from: State, to: State)
    requires x in from.reqs && x in from.hist && x in to.reqs && x in to.hist
    requires Same(from.reqs[x], from.hist[x], to.reqs[x], to.hist[x])
    ensures Before(x, from, to)
  {
  }

  lemma BeforeSelf(x: Req, s: State)
    requires x in s.reqs && x in s.hist
    ensures Before(x, s, s)
  {
  }

  /** A waiting item has lost exactly its completed subrequests at the end. */
  ghost predicate Trimmed(item: Item, left: Item, finished: set<Sub>)
  {
    && 0 < |left.subs| <= |item.subs| && left == item.(subs := item.subs[..|left.subs|])
    && AllFinished(item.subs, |left.subs|, finished) && left.subs[|left.subs| - 1] !in finished
  }

  lemma DrainedAll(item: Item, left: Item, finished: set<Sub>)
    requires |left.subs| <= |item.subs| && left == item.(subs := item.subs[..|left.subs|])
    requires AllFinished(item.subs, |left.subs|, finished)
    requires left.subs != [] ==> left.subs[|left.subs| - 1] !in finished
    ensures left.subs == [] <==> AllFinished(item.subs, 0, finished)
    ensures left.subs != [] ==> Trimmed(item, left, finished)
  {
    if left.subs != [] { assert item.subs[|left.subs| - 1] !in finished; }
  }

  /** What other requests see of a callback: nothing, except that its own request may have more items. */
  ghost predicate Extended(own: bool, before: Request, after: Request)
  {
    && |before.schedule| <= |after.schedule| && after.schedule[..|before.schedule|] == before.schedule
    && (!own ==> after.schedule == before.schedule)
  }

  lemma ExtendedSelf(own: bool, r: Request)
    ensures Extended(own, r, r)
  {
    assert r.schedule[..|r.schedule|] == r.schedule;
  }

  lemma ExtendedMore(own: bool, a: Request, b: Request, c: Request)
    requires Extended(own, a, b) && Extended(own, b, c)
    ensures Extended(own, a, c)
  {
    assert c.schedule[..|a.schedule|] == c.schedule[..|b.schedule|][..|a.schedule|];
  }

  /** Nothing was done to a request: it may have been started. */
  ghost predicate Same(r: Request, h: History, r2: Request, h2: History)
  {
    r2.schedule == r.schedule && h2.done == h.done && h2.calls == h.calls && h2.ends == h.ends
  }

  lemma SameSelf(r: Request, h: History)
    ensures Same(r, h, r, h)
  {
  }

  lemma GrownSame(r: Request, h: History, r2: Request, h2: History)
    requires Extended(false, r, r2) && Grown(h, h2)
    ensures Same(r, h, r2, h2)
  {
  }

  /** The first item was tried.  With all its subrequests completed it is taken off, its callback is called, and the
      other items are next, perhaps with more behind them; else it waits for what is left. */
  ghost predicate Tried(r: Request, h: History, r2: Request, h2: History, finished: set<Sub>)
    requires r.schedule != []
  {
    if AllFinished(r.schedule[0].subs, 0, finished) then
      && h2.done == h.done + 1 && |h2.calls| == |h.calls| + (if r.schedule[0].callback != NULL then 1 else 0)
      && |r2.schedule| >= |r.schedule| - 1 && r2.schedule[..|r.schedule| - 1] == r.schedule[1..]
    else
      && h2.done == h.done && h2.calls == h.calls && r2.schedule != [] && r2.schedule[1..] == r.schedule[1..]
      && Trimmed(r.schedule[0], r2.schedule[0], finished)
  }

  /** What the callback returned, if one was called. */
  ghost function Returned(h: History, h2: History): int
  {
    if |h2.calls| > |h.calls| then h2.calls[|h2.calls| - 1].rc else 0
  }

  /** What a try of an item frees. */
  ghost function GoneFrom(item: Item, r2: Request, finished: set<Sub>): set<Sub>
  {
    if AllFinished(item.subs, 0, finished) then Off(item, 0)
    else if r2.schedule != [] && |r2.schedule[0].subs| <= |item.subs| then Off(item, |r2.schedule[0].subs|) else {}
  }

  ghost function AllGone(r: Request, r2: Request, finished: set<Sub>): set<Sub>
  {
    if r.schedule == [] then {} else GoneFrom(r.schedule[0], r2, finished)
  }

  lemma CalledTried(r: Request, h: History, mid: Request, r2: Request, h2: History, fn: Fn, finished: set<Sub>, rc: int)
    requires r.schedule != [] && r.schedule[0].callback != NULL && AllFinished(r.schedule[0].subs, 0, finished)
    requires mid.schedule == r.schedule[1..] && Extended(true, mid, r2)
    requires h.done < |h.items| && Grown(Logged(Fire(h), fn, finished, rc), h2)
    ensures Tried(r, h, r2, h2, finished) && h2.ends == h.ends && Returned(h, h2) == rc
  {
  }

  lemma UncalledTried(r: Request, h: History, r2: Request, h2: History, finished: set<Sub>, complete: bool)
    requires r.schedule != [] && (complete <==> AllFinished(r.schedule[0].subs, 0, finished)) && h.done < |h.items|
    requires complete ==> r.schedule[0].callback == NULL && r2.schedule == r.schedule[1..] && h2 == Fire(h)
    requires !complete ==> r2.schedule != [] && r2.schedule[1..] == r.schedule[1..] && h2 == h
    requires !complete ==> Trimmed(r.schedule[0], r2.schedule[0], finished)
    ensures Tried(r, h, r2, h2, finished) && h2.ends == h.ends && Returned(h, h2) == 0
    ensures !complete ==> |r2.schedule[0].subs| <= |r.schedule[0].subs|
  {
  }

  /** One step of a request: its first item, if it has one, was tried; it has completed exactly when no item is left. */
  ghost predicate Stepped(r: Request, h: History, r2: Request, h2: History, finished: set<Sub>, removed: bool)
  {
    && (if r.schedule == [] then h2.done == h.done && h2.calls == h.calls && r2.schedule == []
        else Tried(r, h, r2, h2, finished))
    && (removed <==> r2.schedule == []) && h2.ends == (h.ends + if removed then 1 else 0)
    && (removed ==> r2.error == Returned(h, h2))
  }

  lemma SteppedNow(r: Request, h: History, mid: Request, hmid: History, r2: Request, h2: History, finished: set<Sub>,
                   removed: bool)
    requires if r.schedule == [] then Same(r, h, mid, hmid) else Tried(r, h, mid, hmid, finished) && hmid.ends == h.ends
    requires removed ==> r2.error == Returned(h, hmid)
    requires removed <==> mid.schedule == []
    requires if removed then r2.schedule == [] && h2 == hmid.(ends := hmid.ends + 1) else r2 == mid && h2 == hmid
    ensures Stepped(r, h, r2, h2, finished, removed)
    ensures AllGone(r, r2, finished) == AllGone(r, mid, finished)
  {
  }

  lemma DropAt(list: seq<Req>, i: nat, n: nat)
    requires i < n <= |list|
    ensures (list[..i] + list[i + 1..])[..n - 1] == list[..n][..i] + list[..n][i + 1..]
  {
  }

  /** The subrequests the items of a schedule wait for. */
  function Awaited(schedule: seq<Item>): seq<Sub>
  {
    if schedule == [] then [] else schedule[0].subs + Awaited(schedule[1..])
  }

  /** A request only moves on: items are added behind, callbacks run in order, nothing is undone. */
  ghost predicate Advanced(before: History, after: History)
  {
    && |before.items| <= |after.items| && after.items[..|before.items|] == before.items
    && before.done <= after.done && |before.calls| <= |after.calls| && after.calls[..|before.calls|] == before.calls
    && before.starts <= after.starts && before.ends <= after.ends && before.cancels == after.cancels
  }

  lemma AdvancedSelf(h: History)
    ensures Advanced(h, h)
  {
    assert h.items[..|h.items|] == h.items && h.calls[..|h.calls|] == h.calls;
  }

  lemma AdvancedMore(a: History, b: History, c: History)
    requires Advanced(a, b) && Advanced(b, c)
    ensures Advanced(a, c)
  {
    assert c.items[..|a.items|] == c.items[..|b.items|][..|a.items|];
    assert c.calls[..|a.calls|] == c.calls[..|b.calls|][..|a.calls|];
  }

  lemma Waiting(q: Req, r: Request, h: History, finished: set<Sub>, freed: set<Sub>, owner: map<Sub, (Req, nat)>,
                active: seq<Req>)
    requires RequestOk(q, r, h, finished, freed, owner, active) && r.schedule != []
    ensures h.done < |h.items|
  {
  }

  lemma FireAdvances(h: History)
    requires h.done < |h.items|
    ensures Advanced(h, Fire(h))
  {
    AdvancedSelf(h);
  }

  lemma LoggedAdvances(a: History, b: History, fn: Fn, seen: set<Sub>, rc: int)
    requires Advanced(a, b)
    ensures Advanced(a, Logged(b, fn, seen, rc))
  {
  }

  lemma GrownAdvances(a: History, b: History, c: History)
    requires Advanced(a, b) && Grown(b, c)
    ensures Advanced(a, c)
  {
    assert c.items[..|a.items|] == c.items[..|b.items|][..|a.items|];
  }

  lemma EndAdvances(a: History, b: History)
    requires Advanced(a, b)
    ensures Advanced(a, b.(ends := b.ends + 1))
  {
  }

  lemma CancelOk(x: Req, r: Request, h: History, finished: set<Sub>, freed: set<Sub>, owner: map<Sub, (Req, nat)>,
                 active: seq<Req>, now: seq<Req>, q: Req)
    requires RequestOk(x, r, h, finished, freed, owner, active) && forall y :: y in now <==> y in active && y != q
    ensures h.done <= |h.items|
    ensures RequestOk(x, if x == q then r.(schedule := []) else r,
        if x == q then h.(items := h.items[..h.done], cancels := h.cancels + if q in active then 1 else 0)
            else h, finished, freed, owner, now)
  {
    if x == q {
      var r2, h2 := r.(schedule := []),
          h.(items := h.items[..h.done], cancels := h.cancels + if q in active then 1 else 0);
      forall k: nat, i: nat | k < |h2.items| && i < |h2.items[k].subs|
        ensures FreedAt(r2, h2, freed, k, i) && OwnedAt(q, h2, owner, k, i)
      {
        assert FreedAt(r, h, freed, k, i) && OwnedAt(q, h, owner, k, i);
      }
    }
  }

  /** A callback adds to a request but takes nothing from it and completes nothing. */
  ghost predicate Grown(before: History, after: History)
  {
    && |before.items| <= |after.items| && after.items[..|before.items|] == before.items
    && after.done == before.done && after.calls == before.calls && after.ends == before.ends
       && after.cancels == before.cancels
    && before.starts <= after.starts
  }

  lemma GrownSelf(h: History)
    ensures Grown(h, h)
  {
    assert h.items[..|h.items|] == h.items;
  }

  lemma GrownMore(a: History, b: History, c: History)
    requires Grown(a, b) && Grown(b, c)
    ensures Grown(a, c)
  {
    assert c.items[..|a.items|] == c.items[..|b.items|][..|a.items|];
  }

  lemma GrownItem(a: History, b: History, item: Item)
    requires Grown(a, b)
    ensures Grown(a, Noted(b, item))
  {
  }

  lemma GrownStart(a: History, b: History)
    requires Grown(a, b)
    ensures Grown(a, b.(starts := b.starts + 1))
  {
  }

  lemma Removed(active: seq<Req>, i: nat)
    requires i < |active| && Distinct(active)
    ensures Distinct(active[..i] + active[i + 1..])
    ensures forall x :: x in active[..i] + active[i + 1..] <==> x in active && x != active[i]
  {
    var now := active[..i] + active[i + 1..];
    assert forall j | 0 <= j < |now| :: now[j] == active[if j < i then j else j + 1];
    forall x | x in active && x != active[i] ensures x in now {
      var j :| 0 <= j < |active| && active[j] == x;
      assert now[if j < i then j else j - 1] == x;
    }
  }

  lemma CompleteOk(x: Req, r: Request, h: History, finished: set<Sub>, freed: set<Sub>, owner: map<Sub, (Req, nat)>,
                   active: seq<Req>, now: seq<Req>, q: Req, rc: int)
    requires RequestOk(x, r, h, finished, freed, owner, active) && q in active && (x == q ==> r.schedule == [])
    requires forall y :: y in now <==> y in active && y != q
    ensures RequestOk(x, if x == q then Request([], rc) else r, if x == q then h.(ends := h.ends + 1)
        else h, finished, freed, owner, now)
  {
    if x == q {
      var r2, h2 := Request([], rc), h.(ends := h.ends + 1);
      forall k: nat, i: nat | k < |h.items| && i < |h.items[k].subs|
        ensures FreedAt(r2, h2, freed, k, i) && OwnedAt(q, h2, owner, k, i)
      {
        assert FreedAt(r, h, freed, k, i) && OwnedAt(q, h, owner, k, i);
      }
    }
  }

  /** The subrequests a drain frees. */
  ghost function Off(item: Item, n: nat): set<Sub>
    requires n <= |item.subs|
  {
    if item.retain then {} else set i | n <= i < |item.subs| :: item.subs[i]
  }

  lemma NotYetOff(item: Item, n: nat)
    requires 0 < n <= |item.subs| && Distinct(item.subs)
    ensures item.subs[n - 1] !in Off(item, n)
    ensures Off(item, n - 1) == if item.retain then {} else Off(item, n) + {item.subs[n - 1]}
  {
  }

  /** An item is taken off: the next one is first. */
  ghost function Fire(h: History): History
    requires h.done < |h.items|
  {
    h.(done := h.done + 1)
  }

  ghost predicate LastTaken(h: History)
  {
    0 < h.done <= |h.items|
  }

  /** The item last taken off. */
  ghost function LastItem(h: History): Item
    requires LastTaken(h)
  {
    h.items[h.done - 1]
  }

  /** A call is made for the item last taken off. */
  ghost function Logged(h: History, fn: Fn, seen: set<Sub>, rc: int): History
  {
    h.(calls := h.calls + [Call(if h.done > 0 then h.done - 1 else 0, fn, seen, rc)])
  }

  lemma LogSame(h: History, h2: History, n: int)
    requires LogOk(h, n) && h2.items == h.items && h2.calls == h.calls
    ensures LogOk(h2, n)
  {
  }

  lemma LogNoted(h: History, item: Item, n: int)
    requires LogOk(h, n)
    ensures LogOk(Noted(h, item), n) && Noted(h, item).done == h.done
  {
    CallbacksPrefix(h.items, h.items + [item], n);
  }

  /** After the cancellation of the rest only the items already taken off count. */
  lemma LogStop(h: History, h2: History)
    requires LogOk(h, h.done) && h2.items == h.items[..h.done] && h2.calls == h.calls
    ensures LogOk(h2, h.done)
  {
    CallbacksPrefix(h2.items, h.items, h.done);
    forall i | 0 <= i < |h2.calls| ensures CallOk(h2.items, h2.calls[i], Callbacks(h2.items, h.done)[i]) {
      assert CallOk(h.items, h.calls[i], Callbacks(h.items, h.done)[i]);
    }
  }

  /** Taking off an item without a callback owes nothing. */
  lemma LogFire(h: History)
    requires LogOk(h, h.done) && h.done < |h.items|
    ensures LastTaken(Fire(h)) && LastItem(Fire(h)) == h.items[h.done] && LogOk(Fire(h), Fire(h).done - 1)
    ensures h.items[h.done].callback == NULL ==> LogOk(Fire(h), Fire(h).done)
  {
  }

  /** Making the call that is owed. */
  lemma LogCall(q: Req, r: Request, h: History, finished: set<Sub>, freed: set<Sub>, owner: map<Sub, (Req, nat)>,
                active: seq<Req>, rc: int)
    requires RequestOk(q, r, h, finished, freed, owner, active) && LastTaken(h) && LogOk(h, h.done - 1)
        && LastItem(h).callback != NULL
    ensures RequestOk(q, r, Logged(h, LastItem(h).callback, finished, rc), finished, freed, owner, active)
    ensures Logged(h, LastItem(h).callback, finished, rc).done == h.done
    ensures LogOk(Logged(h, LastItem(h).callback, finished, rc), h.done)
  {
    var h2 := Logged(h, LastItem(h).callback, finished, rc);
    forall k: nat, i: nat | k < |h.items| && i < |h.items[k].subs|
      ensures FreedAt(r, h2, freed, k, i) && OwnedAt(q, h2, owner, k, i)
    {
      assert FreedAt(r, h, freed, k, i) && OwnedAt(q, h, owner, k, i);
    }
    assert AllFinished(h.items[h.done - 1].subs, 0, finished);
    forall i | 0 <= i < |h2.calls| ensures CallOk(h2.items, h2.calls[i], Callbacks(h2.items, h.done)[i]) {
      if i < |h.calls| { assert CallOk(h.items, h.calls[i], Callbacks(h.items, h.done - 1)[i]); }
    }
  }

  lemma HeadFresh(q: Req, r: Request, h: History, finished: set<Sub>, freed: set<Sub>, owner: map<Sub, (Req, nat)>,
                  active: seq<Req>)
    requires RequestOk(q, r, h, finished, freed, owner, active) && r.schedule != []
    ensures h.done < |h.items| && Distinct(r.schedule[0].subs) && r.schedule[0].callback == h.items[h.done].callback
    ensures r.schedule[0].retain || forall i | 0 <= i < |r.schedule[0].subs| :: r.schedule[0].subs[i] !in freed
  {
    var item, orig := r.schedule[0], h.items[h.done];
    assert Distinct(orig.subs);
    forall i | 0 <= i < |item.subs|
      ensures item.retain || item.subs[i] !in freed
    {
      assert FreedAt(r, h, freed, h.done, i);
    }
  }

  lemma OffOwned(q: Req, r: Request, h: History, finished: set<Sub>, freed: set<Sub>, owner: map<Sub, (Req, nat)>,
                 active: seq<Req>, n: nat)
    requires RequestOk(q, r, h, finished, freed, owner, active) && r.schedule != [] && n <= |r.schedule[0].subs|
    requires AllFinished(r.schedule[0].subs, n, finished)
    ensures forall s | s in Off(r.schedule[0], n) :: s in owner && owner[s] == (q, h.done) && s in finished
  {
    forall i | n <= i < |r.schedule[0].subs|
      ensures r.schedule[0].subs[i] in owner && owner[r.schedule[0].subs[i]] == (q, h.done)
    {
      assert OwnedAt(q, h, owner, h.done, i);
    }
  }

  lemma OthersKept(q: Req, r: Request, h: History, x: Req, rx: Request, hx: History, finished: set<Sub>,
                   freed: set<Sub>,
                   owner: map<Sub, (Req, nat)>, active: seq<Req>, n: nat)
    requires RequestOk(q, r, h, finished, freed, owner, active) && RequestOk(x, rx, hx, finished, freed, owner, active)
        && x != q
    requires r.schedule != [] && n <= |r.schedule[0].subs| && AllFinished(r.schedule[0].subs, n, finished)
    ensures RequestOk(x, rx, hx, finished, freed + Off(r.schedule[0], n), owner, active)
  {
    hide Off;
    OffOwned(q, r, h, finished, freed, owner, active, n);
    var more := freed + Off(r.schedule[0], n);
    forall k: nat, i: nat | k < |hx.items| && i < |hx.items[k].subs| ensures FreedAt(rx, hx, more, k, i) {
      assert FreedAt(rx, hx, freed, k, i) && OwnedAt(x, hx, owner, k, i);
    }
  }

  /** After a drain the item waits with fewer subrequests, or is done. */
  lemma DrainOk(q: Req, r: Request, h: History, finished: set<Sub>, freed: set<Sub>, owner: map<Sub, (Req, nat)>,
                active: seq<Req>, left: Item)
    requires RequestOk(q, r, h, finished, freed, owner, active) && r.schedule != []
        && |left.subs| <= |r.schedule[0].subs|
    requires left == r.schedule[0].(subs := r.schedule[0].subs[..|left.subs|])
        && AllFinished(r.schedule[0].subs, |left.subs|, finished)
    ensures RequestOk(q, r.(schedule := [left] + r.schedule[1..]), h, finished, freed + Off(r.schedule[0], |left.subs|),
        owner, active)
    ensures left.subs == [] ==>
        RequestOk(q, r.(schedule := r.schedule[1..]), Fire(h), finished, freed + Off(r.schedule[0], 0), owner, active)
  {
    var item, orig, n := r.schedule[0], h.items[h.done], |left.subs|;
    var r2 := r.(schedule := [left] + r.schedule[1..]);
    var more := freed + Off(item, n);
    forall i | n <= i < |orig.subs|
      ensures orig.subs[i] in finished
    {
      assert i < |item.subs| ==> item.subs[i] == orig.subs[i];
    }
    assert left.subs == orig.subs[..n];
    assert ReqOk(r2, h, finished);
    forall k: nat, i: nat | k < |h.items| && i < |h.items[k].subs| ensures FreedAt(r2, h, more, k, i) {
      assert FreedAt(r, h, freed, k, i) && OwnedAt(q, h, owner, k, i);
      DrainedAt(q, r, h, finished, freed, owner, active, n, k, i);
    }
    if left.subs == [] { FireOk(q, r2, h, finished, more, owner, active); }
  }

  /** Which subrequests a drain adds to the freed ones. */
  lemma DrainedAt(q: Req, r: Request, h: History, finished: set<Sub>, freed: set<Sub>, owner: map<Sub, (Req, nat)>,
                  active: seq<Req>, n: nat, k: nat, i: nat)
    requires RequestOk(q, r, h, finished, freed, owner, active) && r.schedule != [] && n <= |r.schedule[0].subs|
    requires k < |h.items| && i < |h.items[k].subs|
    ensures h.items[k].subs[i] in Off(r.schedule[0], n) <==>
        !h.items[k].retain && k == h.done && n <= i < |r.schedule[0].subs|
  {
    var item, orig := r.schedule[0], h.items[h.done];
    assert OwnedAt(q, h, owner, k, i);
    assert Distinct(orig.subs);
    forall j: nat | j < |item.subs| ensures item.subs[j] == orig.subs[j] && OwnedAt(q, h, owner, h.done, j) { }
  }

  lemma FireOk(q: Req, r: Request, h: History, finished: set<Sub>, freed: set<Sub>, owner: map<Sub, (Req, nat)>,
               active: seq<Req>)
    requires RequestOk(q, r, h, finished, freed, owner, active) && r.schedule != [] && r.schedule[0].subs == []
    ensures h.done < |h.items| && RequestOk(q, r.(schedule := r.schedule[1..]), Fire(h), finished, freed, owner, active)
  {
    var r2, h2 := r.(schedule := r.schedule[1..]), Fire(h);
    assert ReqOk(r2, h2, finished);
    forall k: nat, i: nat | k < |h.items| && i < |h.items[k].subs|
      ensures FreedAt(r2, h2, freed, k, i) && OwnedAt(q, h2, owner, k, i)
    {
      assert FreedAt(r, h, freed, k, i) && OwnedAt(q, h, owner, k, i);
    }
  }

  /** The items of a request take possession of their subrequests. */
  ghost function Own(owner: map<Sub, (Req, nat)>, subs: seq<Sub>, who: (Req, nat)): map<Sub, (Req, nat)>
  {
    if subs == [] then owner else Own(owner, subs[..|subs| - 1], who)[subs[|subs| - 1] := who]
  }

  lemma {:induction false} OwnIs(owner: map<Sub, (Req, nat)>, subs: seq<Sub>, who: (Req, nat))
    ensures forall s :: s in Own(owner, subs, who) <==> s in owner || s in subs
    ensures forall s | s in subs :: Own(owner, subs, who)[s] == who
    ensures forall s | s in owner && s !in subs :: Own(owner, subs, who)[s] == owner[s]
  {
    if subs != [] {
      var last := |subs| - 1;
      OwnIs(owner, subs[..last], who);
      assert subs == subs[..last] + [subs[last]];
    }
  }

  lemma OwnIssued(freed: set<Sub>, finished: set<Sub>, owner: map<Sub, (Req, nat)>, issued: nat, subs: seq<Sub>,
                  who: (Req, nat))
    requires Issued(freed, finished, owner, issued) && forall s | s in subs :: s < issued
    ensures Issued(freed, finished, Own(owner, subs, who), issued)
    ensures forall s :: s in Own(owner, subs, who) <==> s in owner || s in subs
  {
    OwnIs(owner, subs, who);
  }

  lemma AppendOk(q: Req, r: Request, h: History, finished: set<Sub>, freed: set<Sub>, owner: map<Sub, (Req, nat)>,
                 active: seq<Req>, item: Item)
    requires RequestOk(q, r, h, finished, freed, owner, active) && Distinct(item.subs)
    requires (forall s | s in item.subs :: s !in owner) && exists n :: Issued(freed, finished, owner, n)
    ensures RequestOk(q, Scheduled(r, item), Noted(h, item), finished, freed, Own(owner, item.subs, (q, |h.items|)),
        active)
  {
    var r2, h2, more := Scheduled(r, item), Noted(h, item), Own(owner, item.subs, (q, |h.items|));
    OwnIs(owner, item.subs, (q, |h.items|));
    assert ReqOk(r2, h2, finished);
    forall k: nat, i: nat | k < |h2.items| && i < |h2.items[k].subs|
      ensures FreedAt(r2, h2, freed, k, i) && OwnedAt(q, h2, more, k, i)
    {
      if k < |h.items| {
        assert FreedAt(r, h, freed, k, i) && OwnedAt(q, h, owner, k, i);
      } else {
        assert item.subs[i] in item.subs;
      }
    }
  }

  lemma NewOk(q: Req, finished: set<Sub>, freed: set<Sub>, owner: map<Sub, (Req, nat)>, active: seq<Req>)
    requires q !in active
    ensures RequestOk(q, Request([], 0), History([], 0, [], 0, 0, 0), finished, freed, owner, active)
    ensures LogOk(History([], 0, [], 0, 0, 0), 0)
  {
  }

  lemma AppendAll(reqs: map<Req, Request>, hist: map<Req, History>, finished: set<Sub>, freed: set<Sub>,
                  owner: map<Sub, (Req, nat)>, active: seq<Req>, issued: nat, q: Req, item: Item)
    requires hist.Keys == reqs.Keys && AllOk(reqs, hist, finished, freed, owner, active) && q in reqs
    requires Distinct(item.subs) && (forall s | s in item.subs :: s !in owner) && Issued(freed, finished, owner, issued)
    ensures AllOk(reqs[q := Scheduled(reqs[q], item)], hist[q := Noted(hist[q], item)], finished, freed,
                  Own(owner, item.subs, (q, |hist[q].items|)), active)
  {
    hide RequestOk, Distinct, Own, Scheduled, Noted, Issued;
    AppendOk(q, reqs[q], hist[q], finished, freed, owner, active, item);
    forall x | x in reqs && x != q
      ensures RequestOk(x, reqs[x], hist[x], finished, freed, Own(owner, item.subs, (q, |hist[q].items|)), active)
    {
      OwnMore(x, reqs[x], hist[x], finished, freed, owner, active, item.subs, (q, |hist[q].items|));
    }
  }

  lemma OwnMore(q: Req, r: Request, h: History, finished: set<Sub>, freed: set<Sub>, owner: map<Sub, (Req, nat)>,
                active: seq<Req>, subs: seq<Sub>, who: (Req, nat))
    requires RequestOk(q, r, h, finished, freed, owner, active) && forall s | s in subs :: s !in owner
    ensures RequestOk(q, r, h, finished, freed, Own(owner, subs, who), active)
  {
    OwnIs(owner, subs, who);
    var more := Own(owner, subs, who);
    forall k: nat, i: nat | k < |h.items| && i < |h.items[k].subs|
      ensures OwnedAt(q, h, more, k, i)
    {
      assert OwnedAt(q, h, owner, k, i);
    }
  }

  lemma FinishOk(q: Req, r: Request, h: History, finished: set<Sub>, freed: set<Sub>, owner: map<Sub, (Req, nat)>,
                 active: seq<Req>, s: Sub)
    requires RequestOk(q, r, h, finished, freed, owner, active)
    ensures RequestOk(q, r, h, finished + {s}, freed, owner, active)
  {
    forall k | 0 <= k < h.done
      ensures AllFinished(h.items[k].subs, 0, finished + {s})
    {
      assert AllFinished(h.items[k].subs, 0, finished);
    }
  }

  lemma StartOk(x: Req, r: Request, h: History, finished: set<Sub>, freed: set<Sub>, owner: map<Sub, (Req, nat)>,
                active: seq<Req>, q: Req)
    requires RequestOk(x, r, h, finished, freed, owner, active) && q !in active
    ensures RequestOk(x, if x == q then r.(error := 0) else r, if x == q then h.(starts := h.starts + 1)
        else h, finished, freed, owner, active + [q])
  {
    if x == q {
      var r2, h2 := r.(error := 0), h.(starts := h.starts + 1);
      forall k: nat, i: nat | k < |h.items| && i < |h.items[k].subs|
        ensures FreedAt(r2, h2, freed, k, i) && OwnedAt(q, h2, owner, k, i)
      {
        assert FreedAt(r, h, freed, k, i) && OwnedAt(q, h, owner, k, i);
      }
    }
  }
}
