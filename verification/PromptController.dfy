/**
 * The two prompt controllers (packages/app-runtime/src/contracts.ts:77-271), which differ in what they answer to an
 * abort and to a timeout and in whether they remember their timeouts.
 */
module PromptControllers {
  import opened Prompts
  import opened Results

  class PromptController<A(==)> {
    const defaults: Defaults<A>
    var pending: seq<Entry>
    var timedOut: set<string>
    var timeoutMs: nat
    /** The list each subscriber was last given. */
    var listeners: map<nat, seq<Request>>
    // the event loop: live timers, live abort listeners, aborted signals, and the promises
    var timers: set<nat>
    var watches: set<nat>
    var aborted: set<nat>
    var next: nat
    var resolutions: seq<Resolution<A>>

    ghost function View(): Queue<A>
      reads this
    {
      Queue(pending, next, timers, watches, aborted, resolutions, timedOut, timeoutMs)
    }

    /** Every subscriber has last been given the pending requests. */
    ghost predicate Informed()
      reads this
    {
      forall l :: l in listeners ==> listeners[l] == Requests(pending)
    }

    constructor (defaults: Defaults<A>, timeoutMs: nat)
      ensures View() == Empty(timeoutMs) && this.defaults == defaults && listeners == map[] && Informed()
    {
      this.defaults := defaults;
      pending := [];
      timedOut := {};
      this.timeoutMs := timeoutMs;
      listeners := map[];
      timers, watches, aborted := {}, {}, {};
      next := 0;
      resolutions := [];
    }

    method Configure(timeoutMs: nat)
      requires Informed()
      modifies this
      ensures View() == Step(old(View()), Event<A>.Configure(timeoutMs), defaults)
      ensures Informed() && listeners == old(listeners)
    {
      this.timeoutMs := timeoutMs;
    }

    method Subscribe(listener: nat)
      requires Informed()
      modifies this`listeners
      ensures Informed() && listeners.Keys == old(listeners.Keys) + {listener}
    {
      listeners := listeners[listener := Requests(pending)];
    }

    method Unsubscribe(listener: nat)
      requires Informed()
      modifies this`listeners
      ensures Informed() && listeners.Keys == old(listeners.Keys) - {listener}
    {
      listeners := listeners - {listener};
    }

    method Notify()
      modifies this`listeners
      ensures Informed() && listeners.Keys == old(listeners.Keys)
    {
      var requests := Requests(pending);
      var todo := listeners.Keys;
      while todo != {}
        invariant listeners.Keys == old(listeners.Keys) && todo <= listeners.Keys
        invariant forall l :: l in listeners && l !in todo ==> listeners[l] == requests
        decreases |todo|
      {
        var l :| l in todo;
        listeners := listeners[l := requests];
        todo := todo - {l};
      }
    }

    /** `settle`: nothing unless the entry is in the queue. */
    method SettleEntry(ticket: nat, answer: A)
      requires Informed()
      modifies this
      ensures View() == Settle(old(View()), ticket, answer)
      ensures Informed() && listeners.Keys == old(listeners.Keys)
    {
      var index := IndexOfTicket(pending, ticket);
      if index < 0 { return; }
      pending := Splice(pending, index);
      timers := timers - {ticket};
      watches := watches - {ticket};
      resolutions := resolutions + [Resolution(ticket, answer)];
      Notify();
    }

    method Request(request: Request, signal: Option<nat>) returns (ticket: nat)
      requires Informed()
      modifies this
      ensures ticket == old(next)
      ensures View() == Step(old(View()), Event<A>.Ask(request, signal), defaults)
      ensures Informed() && listeners.Keys == old(listeners.Keys)
    {
      ticket := next;
      next := next + 1;
      if signal.Some? && signal.value in aborted { return; }
      if signal.Some? { watches := watches + {ticket}; }
      if timeoutMs > 0 { timers := timers + {ticket}; }
      pending := pending + [Entry(ticket, request, signal, timeoutMs > 0)];
      Notify();
    }

    method Decide(id: string, answer: A, timeout: bool)
      requires Informed()
      modifies this
      ensures View() == Step(old(View()), Event<A>.Decide(id, answer, timeout), defaults)
      ensures Informed() && listeners.Keys == old(listeners.Keys)
    {
      hide Splice, Requests;
      var index := IndexOfId(pending, id);
      if index < 0 { return; }
      var ticket := pending[index].ticket;
      pending := Splice(pending, index);
      timers := timers - {ticket};
      watches := watches - {ticket};
      if timeout && answer == defaults.onTimeout && defaults.tracksTimeouts { timedOut := timedOut + {id}; }
      resolutions := resolutions + [Resolution(ticket, answer)];
      Notify();
    }

    /** The signal's listeners are called in the order in which they were added. */
    method Abort(source: nat)
      requires Informed()
      modifies this
      ensures View() == Step(old(View()), Event<A>.Abort(source), defaults)
      ensures Informed() && listeners.Keys == old(listeners.Keys)
    {
      if source in aborted { return; }
      var tickets := Watchers(pending, source);
      ghost var before := View();
      var k := 0;
      while k < |tickets|
        invariant 0 <= k <= |tickets| && Informed() && listeners.Keys == old(listeners.Keys)
        invariant View() == SettleEach(before, tickets[..k], defaults.onAbort)
      {
        assert tickets[..k + 1][..k] == tickets[..k];
        SettleEntry(tickets[k], defaults.onAbort);
        k := k + 1;
      }
      assert tickets[..k] == tickets;
      SettleEachKeepsAborted(before, tickets, defaults.onAbort);
      aborted := aborted + {source};
    }

    /** A live timer fires. */
    method Expire(ticket: nat)
      requires Informed()
      modifies this
      ensures View() == Step(old(View()), Event<A>.Expire(ticket), defaults)
      ensures Informed() && listeners.Keys == old(listeners.Keys)
    {
      if ticket !in timers { return; }
      var index := IndexOfTicket(pending, ticket);
      if index >= 0 && defaults.tracksTimeouts { timedOut := timedOut + {pending[index].request.id}; }
      SettleEntry(ticket, defaults.onTimeout);
    }

    method ConsumeTimedOut(id: string) returns (was: bool)
      requires Informed()
      modifies this
      ensures was <==> id in old(timedOut)
      ensures View() == Step(old(View()), Event<A>.Consume(id), defaults)
      ensures Informed() && listeners == old(listeners)
    {
      was := id in timedOut;
      timedOut := timedOut - {id};
    }
  }

  lemma {:induction false} SettleEachKeepsAborted<A>(q: Queue<A>, tickets: seq<nat>, answer: A)
    ensures SettleEach(q, tickets, answer).aborted == q.aborted
    decreases |tickets|
  {
    if tickets != [] { SettleEachKeepsAborted(q, tickets[..|tickets| - 1], answer); }
  }
}
