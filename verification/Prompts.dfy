/**
 * The prompt queues shared by every front end (packages/app-runtime/src/contracts.ts:77-271), as a state machine
 * in which deciding, aborting and timing out race for each prompt.
 *
 * A ticket numbers the calls of `request`; a resolution is a settled promise. Timers and abort listeners are the
 * tickets whose timer or listener is live.
 */
module Prompts {
  import opened Results

  datatype Request = Request(id: string, text: string)

  datatype Entry = Entry(ticket: nat, request: Request, signal: Option<nat>, timed: bool)

  datatype Resolution<A> = Resolution(ticket: nat, answer: A)

  /** What a queue answers by itself, to an abort and to a timeout, and whether it remembers its timeouts. */
  datatype Defaults<A> = Defaults(onAbort: A, onTimeout: A, tracksTimeouts: bool)

  datatype Event<A> =
    | Ask(request: Request, signal: Option<nat>)
    | Decide(id: string, answer: A, timeout: bool)
    | Abort(source: nat)
    | Expire(ticket: nat)
    | Consume(id: string)
    | Configure(timeoutMs: nat)

  datatype Queue<A> = Queue(
    pending: seq<Entry>,
    next: nat,
    timers: set<nat>,
    watches: set<nat>,
    aborted: set<nat>,
    resolutions: seq<Resolution<A>>,
    timedOut: set<string>,
    timeoutMs: nat)

  function Empty<A>(timeoutMs: nat): Queue<A> {
    Queue([], 0, {}, {}, {}, [], {}, timeoutMs)
  }

  function Requests(pending: seq<Entry>): (r: seq<Request>)
    ensures |r| == |pending|
  {
    seq(|pending|, i requires 0 <= i < |pending| => pending[i].request)
  }

  // ---- Finding entries ----

  function IndexOfTicket(pending: seq<Entry>, ticket: nat): (i: int)
    ensures -1 <= i < |pending|
    ensures i >= 0 ==> pending[i].ticket == ticket
    ensures i < 0 ==> forall j :: 0 <= j < |pending| ==> pending[j].ticket != ticket
  {
    if pending == [] then -1
    else if pending[0].ticket == ticket then 0
    else
      var i := IndexOfTicket(pending[1..], ticket);
      assert forall j :: 0 < j < |pending| ==> pending[j] == pending[1..][j - 1];
      if i < 0 then -1 else i + 1
  }

  function IndexOfId(pending: seq<Entry>, id: string): (i: int)
    ensures -1 <= i < |pending|
    ensures i >= 0 ==> pending[i].request.id == id && forall j :: 0 <= j < i ==> pending[j].request.id != id
    ensures i < 0 ==> forall j :: 0 <= j < |pending| ==> pending[j].request.id != id
  {
    if pending == [] then -1
    else if pending[0].request.id == id then 0
    else
      var i := IndexOfId(pending[1..], id);
      assert forall j :: 0 < j < |pending| ==> pending[j] == pending[1..][j - 1];
      if i < 0 then -1 else i + 1
  }

  function Watchers(pending: seq<Entry>, signal: nat): (tickets: seq<nat>) {
    if pending == [] then []
    else (if pending[0].signal == Some(signal) then [pending[0].ticket] else []) + Watchers(pending[1..], signal)
  }

  // ---- Steps ----

  /** `settle`, with the splice, the two clean-ups and the resolution. */
  function SettleAt<A>(q: Queue<A>, i: nat, answer: A): Queue<A>
    requires i < |q.pending|
  {
    var ticket := q.pending[i].ticket;
    q.(pending := Splice(q.pending, i), timers := q.timers - {ticket},
       watches := q.watches - {ticket}, resolutions := q.resolutions + [Resolution(ticket, answer)])
  }

  function Settle<A>(q: Queue<A>, ticket: nat, answer: A): Queue<A> {
    var i := IndexOfTicket(q.pending, ticket);
    if i < 0 then q else SettleAt(q, i, answer)
  }

  function SettleEach<A>(q: Queue<A>, tickets: seq<nat>, answer: A): Queue<A>
    decreases |tickets|
  {
    if tickets == [] then q
    else Settle(SettleEach(q, tickets[..|tickets| - 1], answer), tickets[|tickets| - 1], answer)
  }

  function Enqueue<A>(q: Queue<A>, request: Request, signal: Option<nat>): Queue<A> {
    var entry := Entry(q.next, request, signal, q.timeoutMs > 0);
    q.(pending := q.pending + [entry], next := q.next + 1,
       timers := if entry.timed then q.timers + {q.next} else q.timers,
       watches := if signal.Some? then q.watches + {q.next} else q.watches)
  }

  function Step<A(==)>(q: Queue<A>, e: Event<A>, d: Defaults<A>): Queue<A> {
    match e
    case Ask(request, signal) =>
      // the entry is not in the queue yet, so settling it does nothing and the promise stays open
      if signal.Some? && signal.value in q.aborted then q.(next := q.next + 1) else Enqueue(q, request, signal)
    case Decide(id, answer, timeout) =>
      var i := IndexOfId(q.pending, id);
      if i < 0 then q
      else
        var r := SettleAt(q, i, answer);
        // an answer that carries the timeout reason is not a timeout
        if timeout && answer == d.onTimeout && d.tracksTimeouts then r.(timedOut := r.timedOut + {id}) else r
    case Abort(signal) =>
      if signal in q.aborted then q
      else SettleEach(q, Watchers(q.pending, signal), d.onAbort).(aborted := q.aborted + {signal})
    case Expire(ticket) =>
      if ticket !in q.timers then q
      else
        var i := IndexOfTicket(q.pending, ticket);
        var r := Settle(q, ticket, d.onTimeout);
        if i < 0 || !d.tracksTimeouts then r else r.(timedOut := r.timedOut + {q.pending[i].request.id})
    case Consume(id) => q.(timedOut := q.timedOut - {id})
    case Configure(timeoutMs) => q.(timeoutMs := timeoutMs)
  }

  function Run<A(==)>(events: seq<Event<A>>, timeoutMs: nat, d: Defaults<A>): Queue<A> {
    if events == [] then Empty(timeoutMs)
    else Step(Run(events[..|events| - 1], timeoutMs, d), events[|events| - 1], d)
  }

  // ---- What every step keeps ----

  /** Tickets grow along the queue. */
  ghost predicate InOrder(pending: seq<Entry>, next: nat) {
    && (forall i, j :: 0 <= i < j < |pending| ==> pending[i].ticket < pending[j].ticket)
    && (forall e :: e in pending ==> e.ticket < next)
  }

  ghost function Timed(pending: seq<Entry>): set<nat> {
    set e | e in pending && e.timed :: e.ticket
  }

  ghost function Watching(pending: seq<Entry>): set<nat> {
    set e | e in pending && e.signal.Some? :: e.ticket
  }

  ghost function Done<A>(resolutions: seq<Resolution<A>>): set<nat> {
    set r | r in resolutions :: r.ticket
  }

  ghost predicate Distinct<A>(resolutions: seq<Resolution<A>>) {
    forall i, j :: 0 <= i < j < |resolutions| ==> resolutions[i].ticket != resolutions[j].ticket
  }

  /** No promise is settled twice, or while its entry is pending; an aborted signal has nothing left to abort. */
  ghost predicate Sound<A>(q: Queue<A>) {
    && Distinct(q.resolutions)
    && (forall t :: t in Done(q.resolutions) ==> t < q.next)
    && (forall e :: e in q.pending ==> e.ticket !in Done(q.resolutions))
    && (forall e :: e in q.pending && e.signal.Some? ==> e.signal.value !in q.aborted)
  }

  /** Timers and abort listeners live exactly as long as their entries are pending. */
  ghost predicate CleanUp<A>(q: Queue<A>) {
    q.timers == Timed(q.pending) && q.watches == Watching(q.pending)
  }

  ghost predicate Inv<A>(q: Queue<A>) {
    InOrder(q.pending, q.next) && CleanUp(q) && Sound(q)
  }

  // ---- Settling ----

  function Splice(pending: seq<Entry>, k: nat): seq<Entry>
    requires k < |pending|
  {
    pending[..k] + pending[k + 1..]
  }

  lemma SpliceHas(pending: seq<Entry>, next: nat, k: nat)
    requires InOrder(pending, next) && k < |pending|
    ensures forall e :: e in Splice(pending, k) <==> e in pending && e.ticket != pending[k].ticket
  {
    var before, after := pending[..k], pending[k + 1..];
    assert pending == before + [pending[k]] + after;
    forall e | e in before ensures e.ticket < pending[k].ticket {
      var i :| 0 <= i < k && before[i] == e;
    }
    forall e | e in after ensures pending[k].ticket < e.ticket {
      var i :| 0 <= i < |after| && after[i] == e;
    }
    hide InOrder;
    forall e ensures e in Splice(pending, k) <==> e in pending && e.ticket != pending[k].ticket {
      assert e in Splice(pending, k) <==> e in before || e in after;
      assert e in pending <==> e in before || e == pending[k] || e in after;
    }
  }

  lemma SpliceKeepsOrder(pending: seq<Entry>, next: nat, k: nat)
    requires InOrder(pending, next) && k < |pending|
    ensures InOrder(Splice(pending, k), next)
    ensures forall e :: e in Splice(pending, k) <==> e in pending && e.ticket != pending[k].ticket
  {
    SpliceHas(pending, next, k);
    SliceInOrder(pending, next, k);
    var before, after := pending[..k], pending[k + 1..];
    var rest: seq<Entry> := before + after;
    forall i, j | 0 <= i < j < |rest| ensures rest[i].ticket < rest[j].ticket {
      if i < k <= j { assert before[i] in before && after[j - k] in after; }
    }
  }

  lemma SliceInOrder(pending: seq<Entry>, next: nat, k: nat)
    requires InOrder(pending, next) && k < |pending|
    ensures forall e :: e in pending[..k] ==> e.ticket < pending[k].ticket
    ensures forall e :: e in pending[k + 1..] ==> pending[k].ticket < e.ticket
    ensures InOrder(pending[..k], next) && InOrder(pending[k + 1..], next)
  {
    var after := pending[k + 1..];
    forall i, j | 0 <= i < j < |after| ensures after[i].ticket < after[j].ticket {
      assert after[i] == pending[k + 1 + i] && after[j] == pending[k + 1 + j];
    }
  }

  lemma ResolutionAdded<A>(resolutions: seq<Resolution<A>>, ticket: nat, answer: A)
    ensures var r := resolutions + [Resolution(ticket, answer)];
            && Done(r) == Done(resolutions) + {ticket}
            && (Distinct(resolutions) && ticket !in Done(resolutions) ==> Distinct(r))
            && (forall t: nat :: Answers(r, t) ==
                  if t == ticket then Answers(resolutions, t) + {answer} else Answers(resolutions, t))
  {
    var last := Resolution(ticket, answer);
    var r := resolutions + [last];
    assert r[|resolutions|] == last;
    assert forall x :: x in r <==> x in resolutions || x == last;
    forall i | 0 <= i < |resolutions| ensures resolutions[i].ticket in Done(resolutions) {
      assert resolutions[i] in resolutions;
    }
    forall t: nat
      ensures Answers(r, t) == if t == ticket then Answers(resolutions, t) + {answer} else Answers(resolutions, t)
    {
      forall a: A ensures a in Answers(r, t) <==> a in Answers(resolutions, t) || (t == ticket && a == answer) {
        if t == ticket && a == answer { assert last in r && last.ticket == t; }
      }
    }
  }

  /** The answers a ticket's promise has been given. */
  ghost function Answers<A>(resolutions: seq<Resolution<A>>, ticket: nat): set<A> {
    set r | r in resolutions && r.ticket == ticket :: r.answer
  }

  /** Exactly the entries with these tickets are settled, all with this answer; nothing else changes. */
  ghost predicate Settled<A>(q: Queue<A>, r: Queue<A>, tickets: set<nat>, answer: A) {
    && (forall e :: e in r.pending <==> e in q.pending && e.ticket !in tickets)
    && (forall t: nat :: Answers(r.resolutions, t)
          == if t in tickets then Answers(q.resolutions, t) + {answer} else Answers(q.resolutions, t))
    && r.next == q.next && r.aborted == q.aborted && r.timedOut == q.timedOut && r.timeoutMs == q.timeoutMs
  }

  lemma SettleAtSettles<A>(q: Queue<A>, k: nat, answer: A)
    requires k < |q.pending| && Inv(q)
    ensures Inv(SettleAt(q, k, answer)) && Settled(q, SettleAt(q, k, answer), {q.pending[k].ticket}, answer)
  {
    hide InOrder, Distinct, Answers, Done;
    var ticket := q.pending[k].ticket;
    SpliceKeepsOrder(q.pending, q.next, k);
    ResolutionAdded(q.resolutions, ticket, answer);
    assert q.pending[k] in q.pending;
    TicketIsOld(q, q.pending[k]);
  }

  lemma TicketIsOld<A>(q: Queue<A>, e: Entry)
    requires Inv(q) && e in q.pending
    ensures e.ticket < q.next
  {}

  ghost predicate IsPending(pending: seq<Entry>, ticket: nat) {
    exists e :: e in pending && e.ticket == ticket
  }

  lemma SettleSettles<A>(q: Queue<A>, ticket: nat, answer: A)
    requires Inv(q) && IsPending(q.pending, ticket)
    ensures Inv(Settle(q, ticket, answer)) && Settled(q, Settle(q, ticket, answer), {ticket}, answer)
  {
    hide Inv, Settled;
    var e :| e in q.pending && e.ticket == ticket;
    var i := IndexOfTicket(q.pending, ticket);
    assert i >= 0;
    SettleAtSettles(q, i, answer);
  }

  ghost predicate Ascending(tickets: seq<nat>) {
    forall i, j :: 0 <= i < j < |tickets| ==> tickets[i] < tickets[j]
  }

  lemma LastIsNew(tickets: seq<nat>)
    requires tickets != [] && Ascending(tickets)
    ensures var n := |tickets| - 1;
            && Ascending(tickets[..n]) && tickets[n] !in tickets[..n]
            && SetOf(tickets) == SetOf(tickets[..n]) + {tickets[n]}
            && (forall t :: t in tickets[..n] ==> t in tickets)
  {
    var n := |tickets| - 1;
    assert tickets == tickets[..n] + [tickets[n]];
  }

  ghost function SetOf(tickets: seq<nat>): set<nat> {
    set t | t in tickets
  }

  lemma {:induction false} SettleEachSettles<A>(q: Queue<A>, tickets: seq<nat>, answer: A)
    requires Inv(q)
    requires forall t :: t in tickets ==> IsPending(q.pending, t)
    requires Ascending(tickets)
    ensures Inv(SettleEach(q, tickets, answer))
    ensures Settled(q, SettleEach(q, tickets, answer), SetOf(tickets), answer)
    decreases |tickets|
  {
    if tickets == [] {
      NothingSettled(q, answer);
    } else {
      hide Inv, Settle, Answers, IsPending, Settled, Ascending;
      var n := |tickets| - 1;
      var front := tickets[..n];
      LastIsNew(tickets);
      SettleEachSettles(q, front, answer);
      var m := SettleEach(q, front, answer);
      var r := SettleEach(q, tickets, answer);
      assert r == Settle(m, tickets[n], answer);
      StillPending(q, m, SetOf(front), answer, tickets[n]);
      SettleSettles(m, tickets[n], answer);
      SettledTwice(q, m, r, SetOf(front), tickets[n], answer);
    }
  }

  lemma StillPending<A>(q: Queue<A>, m: Queue<A>, tickets: set<nat>, answer: A, ticket: nat)
    requires Settled(q, m, tickets, answer) && ticket !in tickets && IsPending(q.pending, ticket)
    ensures IsPending(m.pending, ticket)
  {
    var e :| e in q.pending && e.ticket == ticket;
    assert e in m.pending;
  }

  lemma SettledTwice<A>(q: Queue<A>, m: Queue<A>, r: Queue<A>, tickets: set<nat>, ticket: nat, answer: A)
    requires Settled(q, m, tickets, answer) && Settled(m, r, {ticket}, answer)
    ensures Settled(q, r, tickets + {ticket}, answer)
  {
    hide Answers;
  }

  lemma {:induction false} WatchersAre(pending: seq<Entry>, signal: nat, next: nat)
    requires InOrder(pending, next)
    ensures var w := Watchers(pending, signal);
            && (forall t :: t in w <==> IsWatcher(pending, signal, t))
            && Ascending(w)
  {
    if pending != [] {
      var first, rest := pending[0], pending[1..];
      assert pending == [first] + rest;
      TailInOrder(pending, next);
      WatchersAre(rest, signal, next);
      var w := Watchers(pending, signal);
      forall t ensures t in w <==> IsWatcher(pending, signal, t) {
        assert IsWatcher(pending, signal, t)
          <==> IsWatcher(rest, signal, t) || (first.ticket == t && first.signal == Some(signal));
      }
      var others := Watchers(rest, signal);
      forall t | t in others ensures first.ticket < t {
        assert IsWatcher(rest, signal, t);
      }
      if first.signal == Some(signal) {
        assert w == [first.ticket] + others;
        forall i, j | 0 <= i < j < |w| ensures w[i] < w[j] {
          assert w[j] == others[j - 1] && w[j] in others;
          if i > 0 { assert w[i] == others[i - 1]; }
        }
      }
    }
  }

  ghost predicate IsWatcher(pending: seq<Entry>, signal: nat, ticket: nat) {
    exists e :: e in pending && e.ticket == ticket && e.signal == Some(signal)
  }

  lemma TailInOrder(pending: seq<Entry>, next: nat)
    requires InOrder(pending, next) && pending != []
    ensures InOrder(pending[1..], next) && forall e :: e in pending[1..] ==> pending[0].ticket < e.ticket
  {
    var rest := pending[1..];
    forall i, j | 0 <= i < j < |rest| ensures rest[i].ticket < rest[j].ticket {
      assert rest[i] == pending[i + 1] && rest[j] == pending[j + 1];
    }
    forall e | e in rest ensures pending[0].ticket < e.ticket {
      var i :| 0 <= i < |rest| && rest[i] == e;
      assert e == pending[i + 1];
    }
  }

  // ---- One step ----

  /** The answer an event gives a pending ticket: it decides it, aborts it or times it out. */
  ghost function Hit<A>(q: Queue<A>, e: Event<A>, d: Defaults<A>, ticket: nat): Option<A> {
    match e
    case Decide(id, answer, _) => if IsFirstWithId(q.pending, id, ticket) then Some(answer) else None
    case Abort(source) =>
      if source !in q.aborted && IsWatcher(q.pending, source, ticket) then Some(d.onAbort) else None
    case Expire(late) =>
      if late == ticket && exists x :: x in q.pending && x.ticket == ticket && x.timed then Some(d.onTimeout) else None
    case Ask(_, _) => None
    case Consume(_) => None
    case Configure(_) => None
  }

  /** The ticket belongs to the earliest pending request with that id. */
  ghost predicate IsFirstWithId(pending: seq<Entry>, id: string, ticket: nat) {
    exists e :: e in pending && e.ticket == ticket && e.request.id == id
                && forall x :: x in pending && x.request.id == id ==> ticket <= x.ticket
  }

  /** The entry an event adds. */
  ghost predicate Adds<A>(q: Queue<A>, e: Event<A>, x: Entry) {
    e.Ask? && (e.signal.Some? ==> e.signal.value !in q.aborted)
    && x == Entry(q.next, e.request, e.signal, q.timeoutMs > 0)
  }

  /** What one event does to every promise and to the queue. */
  ghost predicate StepEffect<A>(q: Queue<A>, r: Queue<A>, e: Event<A>, d: Defaults<A>) {
    && (forall t: nat :: Answers(r.resolutions, t)
          == if Hit(q, e, d, t).Some? then Answers(q.resolutions, t) + {Hit(q, e, d, t).value}
             else Answers(q.resolutions, t))
    && (forall x :: x in r.pending <==> (x in q.pending && Hit(q, e, d, x.ticket).None?) || Adds(q, e, x))
    && r.next == q.next + if e.Ask? then 1 else 0
  }

  lemma AskEffect<A>(q: Queue<A>, e: Event<A>, d: Defaults<A>)
    requires Inv(q) && e.Ask?
    ensures Inv(Step(q, e, d)) && StepEffect(q, Step(q, e, d), e, d)
  {
    hide Answers, Done, Distinct;
    var r := Step(q, e, d);
    if !(e.signal.Some? && e.signal.value in q.aborted) {
      var x := Entry(q.next, e.request, e.signal, q.timeoutMs > 0);
      assert r.pending == q.pending + [x];
      assert forall y :: y in r.pending <==> y in q.pending || y == x;
      EnqueueCleansUp(q, r, x);
      hide CleanUp;
      forall i, j | 0 <= i < j < |r.pending| ensures r.pending[i].ticket < r.pending[j].ticket {
        if j == |q.pending| { assert r.pending[i] in q.pending; }
      }
    }
  }

  lemma EnqueueCleansUp<A>(q: Queue<A>, r: Queue<A>, x: Entry)
    requires CleanUp(q) && forall y :: y in r.pending <==> y in q.pending || y == x
    requires r.timers == if x.timed then q.timers + {x.ticket} else q.timers
    requires r.watches == if x.signal.Some? then q.watches + {x.ticket} else q.watches
    ensures CleanUp(r)
  {
    assert x in r.pending;
  }

  lemma OldestIsFirst(pending: seq<Entry>, next: nat, id: string, i: nat)
    requires InOrder(pending, next) && i < |pending| && pending[i].request.id == id
    requires forall j :: 0 <= j < i ==> pending[j].request.id != id
    ensures forall t :: IsFirstWithId(pending, id, t) <==> t == pending[i].ticket
  {
    assert pending[i] in pending;
    forall x | x in pending && x.request.id == id ensures pending[i].ticket <= x.ticket {
      var j :| 0 <= j < |pending| && pending[j] == x;
    }
  }

  lemma NobodyHasId(pending: seq<Entry>, id: string)
    requires forall j :: 0 <= j < |pending| ==> pending[j].request.id != id
    ensures forall t :: !IsFirstWithId(pending, id, t)
  {}

  /** An event that settles one set of tickets, and hits exactly these. */
  lemma SettledIsEffect<A>(q: Queue<A>, m: Queue<A>, r: Queue<A>, e: Event<A>, d: Defaults<A>,
                           tickets: set<nat>, answer: A)
    requires Settled(q, m, tickets, answer) && !e.Ask?
    requires r.pending == m.pending && r.resolutions == m.resolutions && r.next == m.next
    requires forall t: nat :: Hit(q, e, d, t) == if t in tickets then Some(answer) else None
    ensures StepEffect(q, r, e, d)
  {
    hide Hit, Answers;
  }

  lemma DecideEffect<A>(q: Queue<A>, e: Event<A>, d: Defaults<A>)
    requires Inv(q) && e.Decide?
    ensures Inv(Step(q, e, d)) && StepEffect(q, Step(q, e, d), e, d)
  {
    hide Answers, StepEffect, Settled, SettleAt;
    var i := IndexOfId(q.pending, e.id);
    var r := Step(q, e, d);
    if i >= 0 {
      OldestIsFirst(q.pending, q.next, e.id, i);
      SettleAtSettles(q, i, e.answer);
      hide IsFirstWithId, InOrder;
      SettledIsEffect(q, SettleAt(q, i, e.answer), r, e, d, {q.pending[i].ticket}, e.answer);
    } else {
      NobodyHasId(q.pending, e.id);
      hide IsFirstWithId, InOrder;
      NothingSettled(q, e.answer);
      SettledIsEffect(q, q, q, e, d, {}, e.answer);
    }
  }

  lemma NothingSettled<A>(q: Queue<A>, answer: A)
    ensures Settled(q, q, {}, answer)
  {}

  lemma AbortEffect<A>(q: Queue<A>, e: Event<A>, d: Defaults<A>)
    requires Inv(q) && e.Abort?
    ensures Inv(Step(q, e, d)) && StepEffect(q, Step(q, e, d), e, d)
  {
    hide Answers, Done, Distinct;
    if e.source !in q.aborted {
      var w := Watchers(q.pending, e.source);
      WatchersAre(q.pending, e.source, q.next);
      forall t | t in w ensures IsPending(q.pending, t) {
        assert IsWatcher(q.pending, e.source, t);
        var x :| x in q.pending && x.ticket == t && x.signal == Some(e.source);
      }
      SettleEachSettles(q, w, d.onAbort);
      AbortedIsSound(q, SettleEach(q, w, d.onAbort), e.source, w, d.onAbort);
    }
  }

  /** Once its watchers are settled, nothing pending has the signal. */
  lemma AbortedIsSound<A>(q: Queue<A>, m: Queue<A>, source: nat, w: seq<nat>, answer: A)
    requires Inv(m) && Settled(q, m, SetOf(w), answer)
    requires forall t :: t in w <==> IsWatcher(q.pending, source, t)
    ensures Inv(m.(aborted := m.aborted + {source}))
  {
    hide InOrder, CleanUp, Answers, Distinct, Done;
    forall x | x in m.pending && x.signal.Some? ensures x.signal.value != source {
      assert x in q.pending && x.ticket !in w;
      assert !IsWatcher(q.pending, source, x.ticket);
    }
    assert CleanUp(m) ==> CleanUp(m.(aborted := m.aborted + {source})) by {
      SameCleanUp(m, m.(aborted := m.aborted + {source}));
    }
  }

  lemma SameCleanUp<A>(q: Queue<A>, r: Queue<A>)
    requires r.pending == q.pending && r.timers == q.timers && r.watches == q.watches
    ensures CleanUp(q) ==> CleanUp(r)
  {}

  lemma ExpireEffect<A>(q: Queue<A>, e: Event<A>, d: Defaults<A>)
    requires Inv(q) && e.Expire?
    ensures Inv(Step(q, e, d)) && StepEffect(q, Step(q, e, d), e, d)
  {
    hide Answers, Done, Distinct, StepEffect, Settled, Settle;
    var r := Step(q, e, d);
    if e.ticket in q.timers {
      var x :| x in q.pending && x.timed && x.ticket == e.ticket;
      SettleSettles(q, e.ticket, d.onTimeout);
      hide InOrder;
      SettledIsEffect(q, Settle(q, e.ticket, d.onTimeout), r, e, d, {e.ticket}, d.onTimeout);
    } else {
      assert forall x :: x in q.pending && x.timed ==> x.ticket in Timed(q.pending);
      NothingSettled(q, d.onTimeout);
      SettledIsEffect(q, q, q, e, d, {}, d.onTimeout);
    }
  }

  lemma StepIsSound<A>(q: Queue<A>, e: Event<A>, d: Defaults<A>)
    requires Inv(q)
    ensures Inv(Step(q, e, d)) && StepEffect(q, Step(q, e, d), e, d)
  {
    match e
    case Ask(_, _) => AskEffect(q, e, d);
    case Decide(_, _, _) => DecideEffect(q, e, d);
    case Abort(_) => AbortEffect(q, e, d);
    case Expire(_) => ExpireEffect(q, e, d);
    case Consume(_) =>
    case Configure(_) =>
  }

  // ---- Whole runs ----

  /** The answer of the first event of the run that hits the ticket. */
  ghost function FirstAnswer<A>(events: seq<Event<A>>, timeoutMs: nat, d: Defaults<A>, ticket: nat): Option<A> {
    if events == [] then None
    else
      var front, last := events[..|events| - 1], events[|events| - 1];
      var earlier := FirstAnswer(front, timeoutMs, d, ticket);
      if earlier.Some? then earlier else Hit(Run(front, timeoutMs, d), last, d, ticket)
  }

  /** The run asked for this entry, with a signal that had not been aborted. */
  ghost predicate Asked<A>(events: seq<Event<A>>, timeoutMs: nat, d: Defaults<A>, x: Entry) {
    exists k :: 0 <= k < |events| && AskedBy(events, timeoutMs, d, k, x)
  }

  ghost predicate AskedBy<A>(events: seq<Event<A>>, timeoutMs: nat, d: Defaults<A>, k: nat, x: Entry)
    requires k < |events|
  {
    Adds(Run(events[..k], timeoutMs, d), events[k], x)
  }

  ghost function JustAnswer<A>(answer: Option<A>): set<A> {
    if answer.Some? then {answer.value} else {}
  }

  /**
   * In every run, a promise is settled at most once, with the answer of the first event that hits it; and the queue
   * holds, in the order of asking, exactly the entries asked for and not answered.
   */
  lemma {:induction false} FirstAnswerWins<A>(events: seq<Event<A>>, timeoutMs: nat, d: Defaults<A>)
    ensures var q := Run(events, timeoutMs, d);
            && Inv(q)
            && (forall t: nat :: Answers(q.resolutions, t) == JustAnswer(FirstAnswer(events, timeoutMs, d, t)))
            && (forall x :: x in q.pending <==>
                  Asked(events, timeoutMs, d, x) && FirstAnswer(events, timeoutMs, d, x.ticket).None?)
            && (forall x :: Asked(events, timeoutMs, d, x) ==> x.ticket < q.next)
    decreases |events|
  {
    var q := Run(events, timeoutMs, d);
    if events != [] {
      hide Inv, Hit, Answers, Step, Adds;
      var n := |events| - 1;
      var front, e := events[..n], events[n];
      FirstAnswerWins(front, timeoutMs, d);
      var p := Run(front, timeoutMs, d);
      StepIsSound(p, e, d);
      forall x ensures Asked(events, timeoutMs, d, x) <==> Asked(front, timeoutMs, d, x) || Adds(p, e, x) {
        AskedLater(events, timeoutMs, d, x);
      }
      AddsNext(p, e, d);
    }
  }

  lemma AddsNext<A>(p: Queue<A>, e: Event<A>, d: Defaults<A>)
    requires Inv(p)
    ensures forall x :: Adds(p, e, x) ==> x.ticket == p.next && e.Ask?
    ensures forall t: nat :: Hit(p, e, d, t).Some? ==> IsPending(p.pending, t)
    ensures forall x :: x in p.pending ==> x.ticket < p.next
  {}

  lemma AskedLater<A>(events: seq<Event<A>>, timeoutMs: nat, d: Defaults<A>, x: Entry)
    requires events != []
    ensures var n := |events| - 1;
            Asked(events, timeoutMs, d, x)
            <==> Asked(events[..n], timeoutMs, d, x) || Adds(Run(events[..n], timeoutMs, d), events[n], x)
  {
    hide Adds, Run;
    var n := |events| - 1;
    var front := events[..n];
    forall k | 0 <= k < n ensures AskedBy(events, timeoutMs, d, k, x) == AskedBy(front, timeoutMs, d, k, x) {
      assert front[..k] == events[..k];
    }
    if Asked(front, timeoutMs, d, x) {
      var k :| 0 <= k < |front| && AskedBy(front, timeoutMs, d, k, x);
      assert AskedBy(events, timeoutMs, d, k, x);
    }
    if Adds(Run(front, timeoutMs, d), events[n], x) { assert AskedBy(events, timeoutMs, d, n, x); }
  }

  // ---- The promise that stays open ----

  lemma {:induction false} NextCounts<A>(events: seq<Event<A>>, timeoutMs: nat, d: Defaults<A>, j: nat)
    requires j < |events|
    ensures Run(events[..j], timeoutMs, d).next + (if events[j].Ask? then 1 else 0) <= Run(events, timeoutMs, d).next
    decreases |events|
  {
    hide Inv, Answers, Hit, Adds, Step;
    var n := |events| - 1;
    var front := events[..n];
    FirstAnswerWins(front, timeoutMs, d);
    StepIsSound(Run(front, timeoutMs, d), events[n], d);
    if j < n {
      assert front[..j] == events[..j];
      NextCounts(front, timeoutMs, d, j);
    }
  }

  /** A prompt asked for with an aborted signal takes a ticket that no entry of any run has. */
  lemma AbortedAskHasNoEntry<A>(events: seq<Event<A>>, timeoutMs: nat, d: Defaults<A>, k: nat, x: Entry)
    requires k < |events| && events[k].Ask? && events[k].signal.Some?
    requires events[k].signal.value in Run(events[..k], timeoutMs, d).aborted
    requires Asked(events, timeoutMs, d, x)
    ensures x.ticket != Run(events[..k], timeoutMs, d).next
  {
    hide Run;
    var j :| 0 <= j < |events| && AskedBy(events, timeoutMs, d, j, x);
    if j < k {
      NextCounts(events[..k], timeoutMs, d, j);
      assert events[..k][..j] == events[..j];
    } else if k < j {
      NextCounts(events[..j], timeoutMs, d, k);
      assert events[..j][..k] == events[..k];
    }
  }

  /** A prompt asked for with an aborted signal is never settled, and never shown. */
  lemma {:induction false} AbortedAskStaysOpen<A>(events: seq<Event<A>>, timeoutMs: nat, d: Defaults<A>, k: nat)
    requires k < |events| && events[k].Ask? && events[k].signal.Some?
    requires events[k].signal.value in Run(events[..k], timeoutMs, d).aborted
    ensures var q, t := Run(events, timeoutMs, d), Run(events[..k], timeoutMs, d).next;
            Answers(q.resolutions, t) == {} && !IsPending(q.pending, t) && t < q.next
  {
    hide Inv, Answers, Hit, Adds, Step, Run;
    var t := Run(events[..k], timeoutMs, d).next;
    FirstAnswerWins(events, timeoutMs, d);
    NextCounts(events, timeoutMs, d, k);
    forall x | Asked(events, timeoutMs, d, x) ensures x.ticket != t {
      AbortedAskHasNoEntry(events, timeoutMs, d, k, x);
    }
    NeverAskedNeverAnswered(events, timeoutMs, d, t);
  }

  /**
   * A signal that has been aborted has settled a prompt asked for with it exactly if it was not yet
   * aborted when the prompt was asked for.
   */
  lemma AbortSettlesIff<A>(events: seq<Event<A>>, timeoutMs: nat, d: Defaults<A>, k: nat, source: nat)
    requires k < |events| && events[k].Ask? && events[k].signal == Some(source)
    requires source in Run(events, timeoutMs, d).aborted
    ensures
      var q, before := Run(events, timeoutMs, d), Run(events[..k], timeoutMs, d);
      && (Answers(q.resolutions, before.next) != {} <==> source !in before.aborted)
      && !IsPending(q.pending, before.next)
  {
    hide Answers, Hit, Step, Run;
    var q, before := Run(events, timeoutMs, d), Run(events[..k], timeoutMs, d);
    if source in before.aborted {
      AbortedAskStaysOpen(events, timeoutMs, d, k);
    } else {
      FirstAnswerWins(events, timeoutMs, d);
      var x := Entry(before.next, events[k].request, events[k].signal, before.timeoutMs > 0);
      assert AskedBy(events, timeoutMs, d, k, x);
      assert x !in q.pending;
      AnsweredIsNotPending(events, timeoutMs, d, before.next);
    }
  }

  lemma AnsweredIsNotPending<A>(events: seq<Event<A>>, timeoutMs: nat, d: Defaults<A>, ticket: nat)
    requires FirstAnswer(events, timeoutMs, d, ticket).Some?
    ensures !IsPending(Run(events, timeoutMs, d).pending, ticket)
  {
    FirstAnswerWins(events, timeoutMs, d);
  }

  lemma {:induction false} NeverAskedNeverAnswered<A>(events: seq<Event<A>>, timeoutMs: nat, d: Defaults<A>, t: nat)
    requires forall x :: Asked(events, timeoutMs, d, x) ==> x.ticket != t
    ensures FirstAnswer(events, timeoutMs, d, t).None?
    decreases |events|
  {
    if events != [] {
      hide Inv, Answers, Hit, Adds, Step;
      var n := |events| - 1;
      var front := events[..n];
      forall x | Asked(front, timeoutMs, d, x) ensures x.ticket != t { AskedLater(events, timeoutMs, d, x); }
      NeverAskedNeverAnswered(front, timeoutMs, d, t);
      FirstAnswerWins(front, timeoutMs, d);
      AddsNext(Run(front, timeoutMs, d), events[n], d);
    }
  }

  // ---- Timeouts that are remembered ----

  /** The event closes a prompt with this id as timed out. */
  ghost predicate TimesOut<A>(q: Queue<A>, e: Event<A>, d: Defaults<A>, id: string) {
    || (e.Decide? && e.timeout && e.answer == d.onTimeout && e.id == id
        && exists x :: x in q.pending && x.request.id == id)
    || (e.Expire? && exists x :: x in q.pending && x.ticket == e.ticket && x.timed && x.request.id == id)
  }

  ghost predicate TimedOutSince<A>(events: seq<Event<A>>, timeoutMs: nat, d: Defaults<A>, id: string) {
    exists k :: 0 <= k < |events| && TimedOutAt(events, timeoutMs, d, id, k)
  }

  /** Closed as timed out by event `k`, and not consumed since. */
  ghost predicate TimedOutAt<A>(events: seq<Event<A>>, timeoutMs: nat, d: Defaults<A>, id: string, k: nat)
    requires k < |events|
  {
    TimesOut(Run(events[..k], timeoutMs, d), events[k], d, id) && Consume(id) !in events[k + 1..]
  }

  /** One event's effect on the remembered timeouts. */
  lemma StepRemembers<A>(q: Queue<A>, e: Event<A>, d: Defaults<A>, id: string)
    requires Inv(q) && d.tracksTimeouts
    ensures id in Step(q, e, d).timedOut <==> TimesOut(q, e, d, id) || (id in q.timedOut && e != Consume(id))
  {
    hide Answers, Done, Distinct, Settle;
    match e
    case Ask(_, _) =>
    case Consume(_) =>
    case Configure(_) =>
    case Decide(other, answer, _) =>
      var i := IndexOfId(q.pending, other);
      assert i >= 0 ==> q.pending[i] in q.pending;
      assert i < 0 ==> forall x :: x in q.pending ==> x.request.id != other;
    case Abort(source) =>
      if source !in q.aborted {
        var w := Watchers(q.pending, source);
        WatchersAre(q.pending, source, q.next);
        forall t | t in w ensures IsPending(q.pending, t) {
          assert IsWatcher(q.pending, source, t);
          var x :| x in q.pending && x.ticket == t && x.signal == Some(source);
        }
        SettleEachSettles(q, w, d.onAbort);
      }
    case Expire(ticket) => ExpireRemembers(q, ticket, d, id);
  }

  lemma ExpireRemembers<A>(q: Queue<A>, ticket: nat, d: Defaults<A>, id: string)
    requires Inv(q) && d.tracksTimeouts
    ensures var e := Event<A>.Expire(ticket);
            id in Step(q, e, d).timedOut <==> TimesOut(q, e, d, id) || id in q.timedOut
  {
    hide Answers, Done, Distinct, Settle;
    var i := IndexOfTicket(q.pending, ticket);
    if ticket in q.timers {
      var x :| x in q.pending && x.timed && x.ticket == ticket;
      SettleSettles(q, ticket, d.onTimeout);
      assert i >= 0 && q.pending[i] in q.pending;
      forall y | y in q.pending && y.ticket == ticket ensures y == q.pending[i] {
        var j :| 0 <= j < |q.pending| && q.pending[j] == y;
      }
    } else {
      assert forall x :: x in q.pending && x.timed ==> x.ticket in Timed(q.pending);
    }
  }

  lemma TimedOutLater<A>(events: seq<Event<A>>, timeoutMs: nat, d: Defaults<A>, id: string)
    requires events != []
    ensures
      var n := |events| - 1;
      TimedOutSince(events, timeoutMs, d, id)
      <==> TimesOut(Run(events[..n], timeoutMs, d), events[n], d, id)
           || (TimedOutSince(events[..n], timeoutMs, d, id) && events[n] != Consume(id))
  {
    hide TimesOut, Run;
    var n := |events| - 1;
    var front, e := events[..n], events[n];
    forall k | 0 <= k < n
      ensures TimedOutAt(events, timeoutMs, d, id, k) <==> TimedOutAt(front, timeoutMs, d, id, k) && e != Consume(id)
    {
      assert front[..k] == events[..k] && events[k + 1..] == front[k + 1..] + [e];
    }
    assert TimedOutAt(events, timeoutMs, d, id, n) <==> TimesOut(Run(front, timeoutMs, d), e, d, id);
    hide TimedOutAt;
    if TimedOutSince(front, timeoutMs, d, id) {
      var k :| 0 <= k < |front| && TimedOutAt(front, timeoutMs, d, id, k);
      assert TimedOutAt(events, timeoutMs, d, id, k) <==> e != Consume(id);
    }
    if TimedOutSince(events, timeoutMs, d, id) {
      var k :| 0 <= k < |events| && TimedOutAt(events, timeoutMs, d, id, k);
      assert k < n ==> TimedOutAt(front, timeoutMs, d, id, k);
    }
  }

  /** `consumeTimedOut(id)` answers true exactly when a prompt with that id timed out since it was last called. */
  lemma {:induction false} RemembersTimeouts<A>(events: seq<Event<A>>, timeoutMs: nat, d: Defaults<A>, id: string)
    requires d.tracksTimeouts
    ensures id in Run(events, timeoutMs, d).timedOut <==> TimedOutSince(events, timeoutMs, d, id)
    decreases |events|
  {
    if events != [] {
      hide Inv, Answers, Hit, Adds, Step, TimesOut, TimedOutSince;
      var n := |events| - 1;
      var front := events[..n];
      RemembersTimeouts(front, timeoutMs, d, id);
      FirstAnswerWins(front, timeoutMs, d);
      StepRemembers(Run(front, timeoutMs, d), events[n], d, id);
      TimedOutLater(events, timeoutMs, d, id);
    }
  }

  /** A prompt closed with an answer is not remembered as timed out, whatever reason the answer carries. */
  lemma AnswerIsNoTimeout<A>(q: Queue<A>, d: Defaults<A>, id: string, answer: A, timeout: bool)
    requires Inv(q) && d.tracksTimeouts && answer != d.onTimeout
    ensures id in Step(q, Decide(id, answer, timeout), d).timedOut <==> id in q.timedOut
  {
    hide Inv, Step;
    StepRemembers(q, Decide(id, answer, timeout), d, id);
  }

  /** In particular an answer that comes in with the timeout reason. */
  lemma AnsweredLateExample(d: Defaults<Option<string>>)
    requires d == Defaults(None, None, true)
    ensures "q" !in Run([Ask(Request("q", "?"), None), Decide("q", Some("yes"), true)], 0, d).timedOut
  {
    var events := [Ask(Request("q", "?"), None), Decide("q", Some("yes"), true)];
    assert events[..1] == [Ask(Request("q", "?"), None)] && events[..1][..0] == [];
    FirstAnswerWins(events[..1], 0, d);
    assert Run(events[..1][..0], 0, d) == Empty(0);
    AnswerIsNoTimeout(Run(events[..1], 0, d), d, "q", Some("yes"), true);
  }
}
