/**
 * The sliding-window limiter of interactive permission requests (packages/app-runtime/src/mcp-fatigue.ts:18, 71-81).
 * Each request arrives with the limit in force for its server at that moment.
 */
module McpFatigue {

  const WINDOW_MS: int := 60_000

  datatype Request = Request(server: string, at: int, limit: nat)

  function Recent(stamps: seq<int>, instant: int): seq<int> {
    if stamps == [] then []
    else
      var last := stamps[|stamps| - 1];
      Recent(stamps[..|stamps| - 1], instant) + if instant - last < WINDOW_MS then [last] else []
  }

  // ---- The guard ----

  class McpFatigueGuard {
    var windows: map<string, seq<int>>

    constructor ()
      ensures windows == map[]
    {
      windows := map[];
    }

    /** Records the request; true when it is refused. */
    method Check(request: Request) returns (refused: bool)
      modifies this
      ensures windows == Record(old(windows), request)
      ensures refused <==> |windows[request.server]| > request.limit
    {
      var stamps: seq<int> := if request.server in windows then windows[request.server] else [];
      var window: seq<int> := [];
      for i := 0 to |stamps|
        invariant window == Recent(stamps[..i], request.at)
        invariant windows == old(windows)
      {
        assert stamps[..i + 1][..i] == stamps[..i];
        if request.at - stamps[i] < WINDOW_MS { window := window + [stamps[i]]; }
      }
      assert stamps[..|stamps|] == stamps;
      window := window + [request.at];
      windows := windows[request.server := window];
      return |window| > request.limit;
    }
  }

  function WindowOf(windows: map<string, seq<int>>, server: string): seq<int> {
    if server in windows then windows[server] else []
  }

  function Record(windows: map<string, seq<int>>, r: Request): map<string, seq<int>> {
    windows[r.server := Recent(WindowOf(windows, r.server), r.at) + [r.at]]
  }

  function Run(requests: seq<Request>): map<string, seq<int>> {
    if requests == [] then map[] else Record(Run(requests[..|requests| - 1]), requests[|requests| - 1])
  }

  // ---- Whole runs under a monotone clock ----

  ghost predicate Monotone(requests: seq<Request>) {
    forall i, j :: 0 <= i <= j < |requests| ==> requests[i].at <= requests[j].at
  }

  /** Every stamp of the server, refused requests included. */
  function History(requests: seq<Request>, server: string): seq<int> {
    if requests == [] then []
    else
      var last := requests[|requests| - 1];
      History(requests[..|requests| - 1], server) + if last.server == server then [last.at] else []
  }

  lemma {:induction false} RecentTwice(stamps: seq<int>, earlier: int, later: int)
    requires earlier <= later
    ensures Recent(Recent(stamps, earlier), later) == Recent(stamps, later)
    decreases |stamps|
  {
    if stamps != [] {
      var n := |stamps| - 1;
      RecentTwice(stamps[..n], earlier, later);
      var kept := Recent(stamps[..n], earlier);
      RecentSnoc(kept, stamps[n], later);
      assert kept + [] == kept && Recent(kept, later) + [] == Recent(kept, later);
    }
  }

  lemma RecentSnoc(stamps: seq<int>, last: int, instant: int)
    ensures Recent(stamps + [last], instant)
         == Recent(stamps, instant) + if instant - last < WINDOW_MS then [last] else []
  {
    assert (stamps + [last])[..|stamps|] == stamps;
  }

  /** The instant of the server's last request. */
  function LastAt(requests: seq<Request>, server: string): (at: int)
    requires History(requests, server) != []
  {
    var h := History(requests, server);
    h[|h| - 1]
  }

  lemma {:induction false} HistoryIsPast(requests: seq<Request>, server: string, at: int)
    requires forall i :: 0 <= i < |requests| ==> requests[i].at <= at
    ensures forall i :: 0 <= i < |History(requests, server)| ==> History(requests, server)[i] <= at
    decreases |requests|
  {
    if requests != [] { HistoryIsPast(requests[..|requests| - 1], server, at); }
  }

  lemma EndsWith(requests: seq<Request>)
    requires requests != []
    ensures var r := requests[|requests| - 1];
            var h := History(requests[..|requests| - 1], r.server);
            History(requests, r.server) == h + [r.at] && LastAt(requests, r.server) == r.at
  {}

  /** The stored window is the last 60 seconds of the server's whole history. */
  lemma {:induction false} WindowIsRecentHistory(requests: seq<Request>, server: string)
    requires Monotone(requests)
    ensures var h, w := History(requests, server), WindowOf(Run(requests), server);
            w == if h == [] then [] else Recent(h, LastAt(requests, server))
    decreases |requests|
  {
    if requests != [] {
      var n := |requests| - 1;
      var front, last := requests[..n], requests[n];
      WindowIsRecentHistory(front, server);
      var h := History(front, server);
      assert h + [] == h;
      if last.server == server {
        EndsWith(requests);
        HistoryIsPast(front, server, last.at);
        RecentSnoc(h, last.at, last.at);
        if h != [] { RecentTwice(h, LastAt(front, server), last.at); }
      }
    }
  }

  // ---- The limit ----

  /** Request `k` goes through to the user. */
  ghost predicate LetThrough(requests: seq<Request>, k: nat)
    requires k < |requests|
  {
    |WindowOf(Run(requests[..k + 1]), requests[k].server)| <= requests[k].limit
  }

  /** The requests of the server in `[from, from + 60s)` that went through, among the first `n`. */
  ghost function Through(requests: seq<Request>, server: string, from: int, n: nat): nat
    requires n <= |requests|
  {
    if n == 0 then 0
    else
      var r := requests[n - 1];
      Through(requests, server, from, n - 1)
        + if r.server == server && from <= r.at < from + WINDOW_MS && LetThrough(requests, n - 1) then 1 else 0
  }

  function Count(stamps: seq<int>, from: int, to: int): nat {
    if stamps == [] then 0
    else
      var last := stamps[|stamps| - 1];
      Count(stamps[..|stamps| - 1], from, to) + if from <= last <= to then 1 else 0
  }

  lemma {:induction false} CountIsRecent(stamps: seq<int>, from: int, instant: int)
    requires instant < from + WINDOW_MS
    ensures Count(stamps, from, instant) <= |Recent(stamps, instant)|
    decreases |stamps|
  {
    if stamps != [] { CountIsRecent(stamps[..|stamps| - 1], from, instant); }
  }

  /** Whatever went through so far was recorded. */
  lemma {:induction false} ThroughWasRecorded(requests: seq<Request>, server: string, from: int, n: nat, to: int)
    requires n <= |requests| && Monotone(requests) && forall i :: 0 <= i < n ==> requests[i].at <= to
    ensures Through(requests, server, from, n) <= Count(History(requests[..n], server), from, to)
    decreases n
  {
    if n > 0 {
      ThroughWasRecorded(requests, server, from, n - 1, to);
      assert requests[..n][..n - 1] == requests[..n - 1];
      var h := History(requests[..n - 1], server);
      assert (h + [requests[n - 1].at])[..|h|] == h;
      assert h + [] == h;
      assert History(requests[..n], server) ==
        h + if requests[n - 1].server == server then [requests[n - 1].at] else [];
      hide History, LetThrough;
    }
  }

  /** In any half-open minute, no server gets more requests through than the largest of its limits allows. */
  lemma {:induction false} LimitHolds(requests: seq<Request>, server: string, from: int, n: nat, most: nat)
    requires n <= |requests| && Monotone(requests)
    requires forall i :: 0 <= i < n && requests[i].server == server ==> requests[i].limit <= most
    ensures Through(requests, server, from, n) <= most
    decreases n
  {
    if n > 0 {
      var r := requests[n - 1];
      LimitHolds(requests, server, from, n - 1, most);
      if r.server == server && from <= r.at < from + WINDOW_MS && LetThrough(requests, n - 1) {
        LetThroughMeansRoom(requests, from, n);
      }
    }
  }

  lemma LetThroughMeansRoom(requests: seq<Request>, from: int, n: nat)
    requires 0 < n <= |requests| && Monotone(requests)
    requires var r := requests[n - 1]; r.at < from + WINDOW_MS && LetThrough(requests, n - 1)
    ensures Through(requests, requests[n - 1].server, from, n) <= requests[n - 1].limit
  {
    hide Through, Run, History;
    var r := requests[n - 1];
    ThroughWasRecorded(requests, r.server, from, n, r.at);
    WindowIsRecentHistory(requests[..n], r.server);
    EndsWith(requests[..n]);
    CountIsRecent(History(requests[..n], r.server), from, r.at);
  }
}
