/**
 * Approving and enabling read a plugin's entry first and write it back after waiting
 * (packages/app-runtime/src/plugin-state.ts:167-213), so other operations may come in between. What of the
 * plugin life cycle holds all the same, and when an operation is as good as uninterrupted.
 */
module PluginOverlap {
  import opened PluginState
  import opened Results

  /** What an interrupted operation has read. */
  datatype Copy = Copy(op: Op, entry: Option<Plugin>)

  datatype Event =
    | Whole(op: Op)
    | Read(ticket: nat, op: Op)
    | Write(ticket: nat)

  datatype Shared = Shared(state: State, copies: map<nat, Copy>)

  predicate CanBeInterrupted(op: Op) {
    op.Approve? || op.SetEnabled?
  }

  /** What is written back for an entry read; None if the operation is refused. */
  function Written(p: Plugin, op: Op): Option<Plugin> {
    match op
    case Approve(_, hash) =>
      if p.permissionHash != hash then None
      else Some(p.(approvedVersion := Some(p.version), approvedPermissionHash := Some(p.permissionHash)))
    case SetEnabled(_, enabled) => if enabled && !IsPluginApproved(p) then None else Some(p.(enabled := enabled))
    case _ => None
  }

  function Finish(s: State, c: Copy): State {
    if !CanBeInterrupted(c.op) || c.entry.None? || Written(c.entry.value, c.op).None? then s
    else s[c.op.plugin := Written(c.entry.value, c.op).value]
  }

  function Step(h: Shared, e: Event, hasher: Hasher): Shared {
    match e
    case Whole(op) => h.(state := Apply(h.state, op, hasher))
    case Read(ticket, op) =>
      if CanBeInterrupted(op) then h.(copies := h.copies[ticket := Copy(op, Get(h.state, op.plugin))]) else h
    case Write(ticket) =>
      if ticket in h.copies then Shared(Finish(h.state, h.copies[ticket]), h.copies - {ticket}) else h
  }

  function RunShared(events: seq<Event>, hasher: Hasher): Shared {
    if events == [] then Shared(map[], map[])
    else Step(RunShared(events[..|events| - 1], hasher), events[|events| - 1], hasher)
  }

  // ---- What holds whatever overlaps ----

  ghost predicate SoundCopies(copies: map<nat, Copy>) {
    forall ticket :: ticket in copies && copies[ticket].entry.Some? ==>
      && CanBeInterrupted(copies[ticket].op)
      && Sound(map[copies[ticket].op.plugin := copies[ticket].entry.value])
  }

  lemma FinishKeepsSound(s: State, c: Copy)
    requires Sound(s)
    requires c.entry.Some? ==> CanBeInterrupted(c.op) && Sound(map[c.op.plugin := c.entry.value])
    ensures Sound(Finish(s, c))
  {
    if c.entry.Some? {
      var one := map[c.op.plugin := c.entry.value];
      assert one[c.op.plugin] == c.entry.value;
    }
  }

  lemma ReadKeepsSound(h: Shared, ticket: nat, op: Op, hasher: Hasher)
    requires Sound(h.state) && SoundCopies(h.copies)
    ensures SoundCopies(Step(h, Read(ticket, op), hasher).copies)
  {
    if CanBeInterrupted(op) && op.plugin in h.state {
      var one := map[op.plugin := h.state[op.plugin]];
      assert Sound(one);
    }
    hide Sound;
  }

  lemma WholeKeepsSound(s: State, op: Op, hasher: Hasher)
    requires Sound(s)
    ensures Sound(Apply(s, op, hasher))
  {}

  lemma StepKeepsSound(h: Shared, e: Event, hasher: Hasher)
    requires Sound(h.state) && SoundCopies(h.copies)
    ensures Sound(Step(h, e, hasher).state) && SoundCopies(Step(h, e, hasher).copies)
  {
    hide Sound, Apply, Finish;
    match e
    case Whole(op) => WholeKeepsSound(h.state, op, hasher);
    case Read(ticket, op) => ReadKeepsSound(h, ticket, op, hasher);
    case Write(ticket) =>
      if ticket in h.copies {
        FinishKeepsSound(h.state, h.copies[ticket]);
      }
  }

  /** However operations overlap, an enabled plugin is approved and no outdated approval is kept. */
  lemma {:induction false} EnabledMeansApprovedThroughout(events: seq<Event>, hasher: Hasher)
    ensures Sound(RunShared(events, hasher).state) && SoundCopies(RunShared(events, hasher).copies)
    decreases |events|
  {
    hide Step, Sound, SoundCopies;
    if events == [] {
      NothingIsSound();
    } else {
      EnabledMeansApprovedThroughout(events[..|events| - 1], hasher);
      StepKeepsSound(RunShared(events[..|events| - 1], hasher), events[|events| - 1], hasher);
    }
  }

  lemma NothingIsSound()
    ensures Sound(map[]) && SoundCopies(map[])
  {}

  // ---- When interruptions do not matter ----

  /** The entries are the same but for what the operation sets. */
  predicate Agree(a: Plugin, b: Plugin, op: Op) {
    if op.Approve? then
      a.(approvedVersion := None, approvedPermissionHash := None) ==
      b.(approvedVersion := None, approvedPermissionHash := None)
    else a.(enabled := false) == b.(enabled := false)
  }

  /**
   * Writing back does what the whole operation would do at that moment exactly if the entry is still there
   * and has not changed but for what the operation sets.
   */
  lemma WriteIsWholeIff(s: State, c: Copy, hasher: Hasher)
    requires CanBeInterrupted(c.op) && c.entry.Some? && Written(c.entry.value, c.op).Some?
    ensures Finish(s, c) == Apply(s, c.op, hasher) <==>
              c.op.plugin in s && Agree(s[c.op.plugin], c.entry.value, c.op)
  {
    var name, p := c.op.plugin, Written(c.entry.value, c.op).value;
    var after, whole := Finish(s, c), Apply(s, c.op, hasher);
    assert after == s[name := p];
    assert name in after && after[name] == p;
    if name in s && Refusal(s, c.op).Some? {
      assert whole == s;
    } else if name in s {
      assert whole == s[name := whole[name]];
      if Agree(s[name], c.entry.value, c.op) {
        assert whole[name] == p;
      }
    }
  }

  /** The entry read is still the one in the store. */
  predicate IsCurrent(h: Shared, ticket: nat) {
    ticket in h.copies ==>
      CanBeInterrupted(h.copies[ticket].op) && h.copies[ticket].entry == Get(h.state, h.copies[ticket].op.plugin)
  }

  /** The operations in the order in which they take effect. */
  ghost function Ops(events: seq<Event>, hasher: Hasher): seq<Op> {
    if events == [] then []
    else
      var before := RunShared(events[..|events| - 1], hasher);
      Ops(events[..|events| - 1], hasher) +
      match events[|events| - 1]
      case Whole(op) => [op]
      case Read(_, _) => []
      case Write(ticket) => if ticket in before.copies then [before.copies[ticket].op] else []
  }

  lemma RunSnoc(ops: seq<Op>, op: Op, hasher: Hasher)
    ensures Run(ops + [op], hasher) == Apply(Run(ops, hasher), op, hasher)
  {
    assert (ops + [op])[..|ops|] == ops;
  }

  lemma CurrentWriteIsWhole(h: Shared, ticket: nat, hasher: Hasher)
    requires ticket in h.copies && IsCurrent(h, ticket)
    ensures Finish(h.state, h.copies[ticket]) == Apply(h.state, h.copies[ticket].op, hasher)
  {}

  /** If every write finds its entry current, the run is one of whole operations in the order of their writes. */
  lemma {:induction false} CurrentWritesAreSequential(events: seq<Event>, hasher: Hasher)
    requires forall k :: 0 <= k < |events| && events[k].Write? ==>
      IsCurrent(RunShared(events[..k], hasher), events[k].ticket)
    ensures RunShared(events, hasher).state == Run(Ops(events, hasher), hasher)
    decreases |events|
  {
    hide Apply, Finish, IsCurrent;
    if events != [] {
      var front, e := events[..|events| - 1], events[|events| - 1];
      assert forall k :: 0 <= k < |front| ==> front[..k] == events[..k];
      CurrentWritesAreSequential(front, hasher);
      var h, ops := RunShared(front, hasher), Ops(front, hasher);
      assert ops + [] == ops;
      match e
      case Whole(op) => RunSnoc(ops, op, hasher);
      case Read(_, _) =>
      case Write(ticket) =>
        if ticket in h.copies {
          CurrentWriteIsWhole(h, ticket, hasher);
          RunSnoc(ops, h.copies[ticket].op, hasher);
        }
    }
  }

  /** Then a market plugin that is approved was approved, and one that is enabled was enabled after that. */
  lemma MarketPluginsAreApprovedThenEnabled(events: seq<Event>, hasher: Hasher, name: string)
    requires forall k :: 0 <= k < |events| && events[k].Write? ==>
      IsCurrent(RunShared(events[..k], hasher), events[k].ticket)
    requires name in RunShared(events, hasher).state && RunShared(events, hasher).state[name].source == Market
    requires IsPluginApproved(RunShared(events, hasher).state[name])
    ensures
      var p := RunShared(events, hasher).state[name];
      && WasApproved(Ops(events, hasher), hasher, p)
      && (p.enabled ==> WasEnabledAfter(Ops(events, hasher), hasher, p))
  {
    CurrentWritesAreSequential(events, hasher);
    PluginState.MarketPluginsAreApprovedThenEnabled(Ops(events, hasher), hasher, name);
  }

  /** An approval that was read before a discovery undoes the discovery when it is written back. */
  lemma LostDiscovery(h: Shared, hasher: Hasher, ticket: nat, name: string, hash: string, m: Manifest, dir: string)
    requires name in h.state && h.state[name].permissionHash == hash && m.name == name
    ensures
      var read := Step(h, Read(ticket, Approve(name, hash)), hasher);
      var found := Step(read, Whole(Discover(m, Market, dir)), hasher);
      var r := Step(found, Write(ticket), hasher).state;
      && found.state[name].version == m.version
      && name in r && r[name].version == h.state[name].version && r[name].permissionHash == hash
      && IsPluginApproved(r[name])
  {}
}
