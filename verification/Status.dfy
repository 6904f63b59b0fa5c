/** The status channels of solver, tee and bridge. */
module Status {
  // The status pipeline of one solve: the solver sends on one unbuffered channel, the tee redacts
  // and observes and passes on to a second one, the bridge turns what arrives into display messages.
  // Either may meet a cancelled context at any moment.

  import opened Prelude

  /** A solve status; a nil pointer is None. */
  type Status = int
  type Item = Option<Status>

  datatype Msg = JobStatus(item: Item) | JobDone

  /** The tee's program counter; Direct when nothing observes and the bridge reads the source. */
  datatype Tee = Direct | Looping | Holding(s: Status) | ClosingOut | Draining | Flushing | Finished

  datatype Bridge = Receiving | Sending(item: Item) | Discarding | Announcing | Ended

  datatype State = State(
    toSend: seq<Item>,      // what the solver still wants to send
    sent: seq<Item>,        // what it has sent
    srcOpen: bool,
    tee: Tee,
    outOpen: bool,
    bridge: Bridge,
    seen: seq<Item>,        // what the tee, or a directly connected bridge, has taken in
    delivered: seq<Item>,   // the statuses among msgs
    msgs: seq<Msg>,
    flushes: nat,
    cancelled: bool)

  datatype Action =
    | SolverSends | SolverCloses | SolverGivesUp
    | TeeSeesClose | TeeCancelled | TeePasses | TeeClosesOut | TeeFlushes
    | BridgeSeesClose | BridgeCancelled | BridgeSends | BridgeAnnounces
    | CancelContext

  function Init(script: seq<Item>, direct: bool): State {
    State(script, [], true, if direct then Direct else Looping, !direct, Receiving, [], [], [], 0, false)
  }

  /** The channel the bridge reads is closed. */
  predicate InputClosed(s: State) {
    if s.tee.Direct? then !s.srcOpen else !s.outOpen
  }

  predicate SourceReceiverReady(s: State) {
    match s.tee
    case Direct => s.bridge.Receiving? || s.bridge.Discarding?
    case Looping => true
    case Draining => true
    case _ => false
  }

  predicate Enabled(s: State, a: Action) {
    match a
    case SolverSends => s.srcOpen && s.toSend != [] && SourceReceiverReady(s)
    case SolverCloses => s.srcOpen && s.toSend == []
    case SolverGivesUp => s.srcOpen
    case TeeSeesClose => (s.tee.Looping? || s.tee.Draining?) && !s.srcOpen
    case TeeCancelled => s.cancelled && (s.tee.Looping? || s.tee.Holding?)
    case TeePasses => s.tee.Holding? && (s.bridge.Receiving? || s.bridge.Discarding?)
    case TeeClosesOut => s.tee.ClosingOut?
    case TeeFlushes => s.tee.Flushing?
    case BridgeSeesClose => (s.bridge.Receiving? || s.bridge.Discarding?) && InputClosed(s)
    case BridgeCancelled => s.cancelled && s.bridge.Receiving?
    case BridgeSends => s.bridge.Sending?
    case BridgeAnnounces => s.bridge.Announcing?
    case CancelContext => !s.cancelled
  }

  function Take(s: State): State
    requires s.toSend != []
  {
    s.(toSend := s.toSend[1..], sent := s.sent + [s.toSend[0]])
  }

  /** redact is what redactStatus makes of a status. */
  function Next(redact: Status -> Status, s: State, a: Action): State
    requires Enabled(s, a)
  {
    match a
    case SolverSends => (
      var item, t := s.toSend[0], Take(s);
      match s.tee
      case Direct =>
        if s.bridge.Receiving? then t.(bridge := Sending(item), seen := s.seen + [item]) else t
      case Looping =>
        if item.None? then t
        else t.(tee := Holding(redact(item.value)), seen := s.seen + [Some(redact(item.value))])
      case _ => t)
    case SolverCloses => s.(srcOpen := false)
    case SolverGivesUp => s.(srcOpen := false)
    case TeeSeesClose => s.(tee := if s.tee.Looping? then ClosingOut else Flushing)
    case TeeCancelled => s.(tee := ClosingOut)
    case TeePasses =>
      s.(tee := Looping, bridge := if s.bridge.Receiving? then Sending(Some(s.tee.s)) else s.bridge)
    case TeeClosesOut => s.(tee := Draining, outOpen := false)
    case TeeFlushes => s.(tee := Finished, flushes := s.flushes + 1)
    case BridgeSeesClose => s.(bridge := Announcing)
    case BridgeCancelled => s.(bridge := Discarding)
    case BridgeSends =>
      s.(bridge := Receiving, delivered := s.delivered + [s.bridge.item], msgs := s.msgs + [JobStatus(s.bridge.item)])
    case BridgeAnnounces => s.(bridge := Ended, msgs := s.msgs + [JobDone])
    case CancelContext => s.(cancelled := true)
  }

  predicate Legal(redact: Status -> Status, s: State, acts: seq<Action>)
    decreases |acts|
  {
    acts != [] ==> Enabled(s, acts[0]) && Legal(redact, Next(redact, s, acts[0]), acts[1..])
  }

  function After(redact: Status -> Status, s: State, acts: seq<Action>): State
    requires Legal(redact, s, acts)
    decreases |acts|
  {
    if acts == [] then s else After(redact, Next(redact, s, acts[0]), acts[1..])
  }

  // ---------------------------------------------------------------- the invariant

  /** What the display may get to see of the items sent: through the tee the redacted non-nil ones,
      through a direct connection everything. */
  function Visible(redact: Status -> Status, direct: bool, items: seq<Item>): seq<Item> {
    if items == [] then []
    else var front, last := Visible(redact, direct, items[..|items| - 1]), items[|items| - 1];
      if direct then front + [last]
      else if last.None? then front
      else front + [Some(redact(last.value))]
  }

  lemma VisibleAppend(redact: Status -> Status, direct: bool, items: seq<Item>, x: Item)
    ensures Visible(redact, direct, items + [x]) == Visible(redact, direct, items)
      + if direct then [x] else if x.None? then [] else [Some(redact(x.value))]
  {
    assert (items + [x])[..|items|] == items;
  }

  /** What is visible: directly everything; through the tee one redacted status for each that is not
      nil, in the order sent. */
  ghost predicate Shows(redact: Status -> Status, direct: bool, items: seq<Item>, shown: seq<Item>) {
    if direct then shown == items
    else exists kept :: Selects(items, (x: Item) => x.Some?, kept) && RedactedAll(redact, kept, shown)
  }

  ghost predicate RedactedAll(redact: Status -> Status, kept: seq<Item>, shown: seq<Item>) {
    |shown| == |kept| && forall i :: 0 <= i < |kept| ==> kept[i].Some? && shown[i] == Some(redact(kept[i].value))
  }

  lemma {:induction false} VisibleIsShown(redact: Status -> Status, direct: bool, items: seq<Item>)
    ensures Shows(redact, direct, items, Visible(redact, direct, items))
  {
    WhereSelects(items, (x: Item) => x.Some?);
    VisibleIsRedacted(redact, direct, items);
  }

  lemma {:induction false} VisibleIsRedacted(redact: Status -> Status, direct: bool, items: seq<Item>)
    ensures direct ==> Visible(redact, direct, items) == items
    ensures !direct ==> RedactedAll(redact, Where(items, (x: Item) => x.Some?), Visible(redact, direct, items))
  {
    if items != [] {
      VisibleIsRedacted(redact, direct, items[..|items| - 1]);
      assert items == items[..|items| - 1] + [items[|items| - 1]];
    }
  }

  predicate Prefix(a: seq<Item>, b: seq<Item>) {
    |a| <= |b| && b[..|a|] == a
  }

  function AtBridge(s: State): seq<Item> {
    if s.bridge.Sending? then [s.bridge.item] else []
  }

  function AtTee(s: State): seq<Item> {
    if s.tee.Holding? then [Some(s.tee.s)] else []
  }

  predicate BridgeActive(s: State) {
    s.bridge.Receiving? || s.bridge.Sending?
  }

  /** The first stage still takes in everything the solver sends. */
  predicate TakingIn(s: State) {
    s.tee.Looping? || s.tee.Holding? || (s.tee.Direct? && BridgeActive(s))
  }

  function Messages(items: seq<Item>): (r: seq<Msg>)
    ensures |r| == |items| && forall i :: 0 <= i < |r| ==> r[i] == JobStatus(items[i])
  {
    seq(|items|, i requires 0 <= i < |items| => JobStatus(items[i]))
  }

  ghost predicate ControlInv(s: State) {
    && (s.outOpen <==> s.tee.Looping? || s.tee.Holding? || s.tee.ClosingOut?)
    && (s.tee.Flushing? || s.tee.Finished? ==> !s.srcOpen)
    && (s.bridge.Announcing? || s.bridge.Ended? ==> InputClosed(s))
    && (s.bridge.Discarding? ==> s.cancelled)
    && (!s.cancelled && (s.tee.ClosingOut? || s.tee.Draining?) ==> !s.srcOpen)
    && s.flushes == (if s.tee.Finished? then 1 else 0)
  }

  ghost predicate DataInv(redact: Status -> Status, s: State) {
    var visible := Visible(redact, s.tee.Direct?, s.sent);
    && Prefix(s.seen, visible)
    && (TakingIn(s) || !s.cancelled ==> s.seen == visible)
    && Prefix(s.delivered + AtBridge(s), s.seen)
    && (BridgeActive(s) && TakingIn(s) ==> s.delivered + AtBridge(s) + AtTee(s) == s.seen)
    && (!s.cancelled && !TakingIn(s) ==> s.delivered + AtBridge(s) == s.seen)
    && s.msgs == Messages(s.delivered) + if s.bridge.Ended? then [JobDone] else []
  }

  ghost predicate Inv(redact: Status -> Status, s: State) {
    ControlInv(s) && DataInv(redact, s)
  }

  lemma NextKeepsControl(redact: Status -> Status, s: State, a: Action)
    requires ControlInv(s) && Enabled(s, a)
    ensures ControlInv(Next(redact, s, a))
  {
  }

  lemma PrefixOfAppend(a: seq<Item>, b: seq<Item>, c: seq<Item>)
    requires Prefix(a, b)
    ensures Prefix(a, b + c)
  {
    assert (b + c)[..|a|] == b[..|a|];
  }

  lemma SendingKeepsData(redact: Status -> Status, s: State)
    requires Inv(redact, s) && Enabled(s, SolverSends)
    ensures DataInv(redact, Next(redact, s, SolverSends))
  {
    var s' := Next(redact, s, SolverSends);
    var direct, item := s.tee.Direct?, s.toSend[0];
    VisibleAppend(redact, direct, s.sent, item);
    var visible, visible' := Visible(redact, direct, s.sent), Visible(redact, direct, s'.sent);
    assert visible' == visible + visible'[|visible|..];
    PrefixOfAppend(s.seen, visible, visible'[|visible|..]);
    PrefixOfAppend(s.delivered + AtBridge(s), s.seen, s'.seen[|s.seen|..]);
    assert s'.seen == s.seen + s'.seen[|s.seen|..];
  }

  lemma DeliveringKeepsData(redact: Status -> Status, s: State)
    requires Inv(redact, s) && Enabled(s, BridgeSends)
    ensures DataInv(redact, Next(redact, s, BridgeSends))
  {
    var s' := Next(redact, s, BridgeSends);
    assert s'.delivered + AtBridge(s') == s.delivered + AtBridge(s);
    assert Messages(s'.delivered) == Messages(s.delivered) + [JobStatus(s.bridge.item)];
  }

  lemma PassingKeepsData(redact: Status -> Status, s: State)
    requires Inv(redact, s) && Enabled(s, TeePasses)
    ensures DataInv(redact, Next(redact, s, TeePasses))
  {
    var s' := Next(redact, s, TeePasses);
    if s.bridge.Receiving? {
      assert s'.delivered + AtBridge(s') == s.delivered + AtBridge(s) + AtTee(s);
    }
  }

  lemma NextKeepsData(redact: Status -> Status, s: State, a: Action)
    requires Inv(redact, s) && Enabled(s, a)
    ensures DataInv(redact, Next(redact, s, a))
  {
    match a {
      case SolverSends => SendingKeepsData(redact, s);
      case BridgeSends => DeliveringKeepsData(redact, s);
      case TeePasses => PassingKeepsData(redact, s);
      case _ =>
        var s' := Next(redact, s, a);
        assert s.delivered + AtBridge(s) + [] == s.delivered + AtBridge(s);
        assert s'.delivered + AtBridge(s') == s.delivered + AtBridge(s);
    }
  }

  lemma {:induction false} RunsKeepInv(redact: Status -> Status, s: State, acts: seq<Action>)
    requires Inv(redact, s) && Legal(redact, s, acts)
    ensures Inv(redact, After(redact, s, acts))
    decreases |acts|
  {
    if acts != [] {
      NextKeepsControl(redact, s, acts[0]);
      NextKeepsData(redact, s, acts[0]);
      RunsKeepInv(redact, Next(redact, s, acts[0]), acts[1..]);
    }
  }

  // ---------------------------------------------------------------- progress

  function TeeSteps(t: Tee): nat {
    match t
    case Direct => 0
    case Looping => 4
    case Holding(_) => 7
    case ClosingOut => 3
    case Draining => 2
    case Flushing => 1
    case Finished => 0
  }

  function BridgeSteps(b: Bridge): nat {
    match b case Receiving => 3 case Sending(_) => 5 case Discarding => 2 case Announcing => 1 case Ended => 0
  }

  function Measure(s: State): nat {
    6 * |s.toSend| + (if s.srcOpen then 1 else 0) + TeeSteps(s.tee) + BridgeSteps(s.bridge) + (if s.cancelled then 0 else 1)
  }

  lemma EveryActionDecreases(redact: Status -> Status, s: State, a: Action)
    requires Enabled(s, a)
    ensures Measure(Next(redact, s, a)) < Measure(s)
  {
  }

  predicate AllFinished(s: State) {
    !s.srcOpen && (s.tee.Direct? || s.tee.Finished?) && s.bridge.Ended?
  }

  /** Actions that need neither a cancellation nor a solver that abandons what it has to send. */
  predicate Ordinary(a: Action) {
    a != CancelContext && a != SolverGivesUp
  }

  /** As long as a party is unfinished some ordinary action is possible: in particular a solver that
      insists on sending everything is never stuck, whatever has been cancelled. */
  lemma SomeoneCanMove(s: State) returns (a: Action)
    requires ControlInv(s) && !AllFinished(s)
    ensures Enabled(s, a) && Ordinary(a)
  {
    if s.bridge.Sending? {
      a := BridgeSends;
    } else if s.bridge.Announcing? {
      a := BridgeAnnounces;
    } else if s.tee.Holding? {
      a := TeePasses;
    } else if s.tee.ClosingOut? {
      a := TeeClosesOut;
    } else if s.tee.Flushing? {
      a := TeeFlushes;
    } else if s.srcOpen {
      a := if s.toSend == [] then SolverCloses else SolverSends;
    } else if s.tee.Looping? || s.tee.Draining? {
      a := TeeSeesClose;
    } else {
      a := BridgeSeesClose;
    }
  }

  lemma {:induction false} RunsAreBounded(redact: Status -> Status, s: State, acts: seq<Action>)
    requires Legal(redact, s, acts)
    ensures |acts| + Measure(After(redact, s, acts)) <= Measure(s)
    decreases |acts|
  {
    if acts != [] {
      EveryActionDecreases(redact, s, acts[0]);
      RunsAreBounded(redact, Next(redact, s, acts[0]), acts[1..]);
    }
  }

  lemma InitKeepsInv(redact: Status -> Status, script: seq<Item>, direct: bool)
    ensures Inv(redact, Init(script, direct))
  {
  }

  /** Under every timing of cancellation and close: the run is bounded, it stops only when solver,
      tee and bridge have all finished, what is delivered is an in-order prefix of the visible
      statuses sent, and the one JobDone comes last. Without cancellation everything is delivered. */
  lemma StatusProtocol(redact: Status -> Status, script: seq<Item>, direct: bool, acts: seq<Action>)
    requires Legal(redact, Init(script, direct), acts)
    ensures var s := After(redact, Init(script, direct), acts);
      var visible := Visible(redact, s.tee.Direct?, s.sent);
      && |acts| <= Measure(Init(script, direct))
      && (AllFinished(s) || exists a :: Enabled(s, a) && Ordinary(a))
      && Prefix(s.delivered, visible) && Prefix(s.seen, visible)
      && (!AllFinished(s) || s.cancelled || s.delivered == visible)
      && (AllFinished(s) ==> s.msgs == Messages(s.delivered) + [JobDone])
      && (JobDone in s.msgs ==> s.bridge.Ended?)
      && (AllFinished(s) && !s.tee.Direct? ==> s.flushes == 1)
  {
    var s := After(redact, Init(script, direct), acts);
    InitKeepsInv(redact, script, direct);
    RunsKeepInv(redact, Init(script, direct), acts);
    RunsAreBounded(redact, Init(script, direct), acts);
    if !AllFinished(s) {
      var a := SomeoneCanMove(s);
    }
    var visible := Visible(redact, s.tee.Direct?, s.sent);
    assert (s.delivered + AtBridge(s))[..|s.delivered|] == s.delivered;
    assert s.delivered == s.seen[..|s.delivered|] == visible[..|s.delivered|];
    if AllFinished(s) {
      assert s.delivered + AtBridge(s) == s.delivered;
    }
  }

  lemma {:induction false} TeeStaysConnected(redact: Status -> Status, s: State, acts: seq<Action>)
    requires Legal(redact, s, acts)
    ensures After(redact, s, acts).tee.Direct? == s.tee.Direct?
    ensures After(redact, s, acts).sent + After(redact, s, acts).toSend == s.sent + s.toSend
    decreases |acts|
  {
    if acts != [] {
      var s' := Next(redact, s, acts[0]);
      assert s'.sent + s'.toSend == s.sent + s.toSend;
      TeeStaysConnected(redact, s', acts[1..]);
    }
  }

  predicate Undisturbed(acts: seq<Action>) {
    forall a :: a in acts ==> Ordinary(a)
  }

  lemma {:induction false} UndisturbedRuns(redact: Status -> Status, s: State, acts: seq<Action>)
    requires Legal(redact, s, acts) && Undisturbed(acts)
    requires !s.cancelled && (!s.srcOpen ==> s.toSend == [])
    ensures var t := After(redact, s, acts); !t.cancelled && (!t.srcOpen ==> t.toSend == [])
    decreases |acts|
  {
    if acts != [] {
      assert acts[0] in acts;
      UndisturbedRuns(redact, Next(redact, s, acts[0]), acts[1..]);
    }
  }

  /** The context may be cancelled and the solver may give up at any moment; once cancelled, tee and bridge
      can leave whatever they wait for, and then only drain. */
  lemma CancellationIsFree(redact: Status -> Status, s: State)
    ensures !s.cancelled ==> Enabled(s, CancelContext) && Next(redact, s, CancelContext) == s.(cancelled := true)
    ensures s.srcOpen ==> Enabled(s, SolverGivesUp) && !Next(redact, s, SolverGivesUp).srcOpen
    ensures s.cancelled && (s.tee.Looping? || s.tee.Holding?) ==>
      Enabled(s, TeeCancelled) && Next(redact, s, TeeCancelled).tee.ClosingOut?
    ensures s.cancelled && s.bridge.Receiving? ==>
      Enabled(s, BridgeCancelled) && Next(redact, s, BridgeCancelled).bridge.Discarding?
  {
  }

  /** A run without cancellation in which the solver sends all it has shows all of it, in order,
      whatever the interleaving; its messages are then the same in every such run. */
  lemma NothingIsLost(redact: Status -> Status, script: seq<Item>, direct: bool, acts: seq<Action>)
    requires Legal(redact, Init(script, direct), acts) && Undisturbed(acts)
    requires AllFinished(After(redact, Init(script, direct), acts))
    ensures After(redact, Init(script, direct), acts).msgs == Messages(Visible(redact, direct, script)) + [JobDone]
  {
    StatusProtocol(redact, script, direct, acts);
    UndisturbedRuns(redact, Init(script, direct), acts);
    TeeStaysConnected(redact, Init(script, direct), acts);
    var s := After(redact, Init(script, direct), acts);
    assert s.sent == s.sent + s.toSend == script;
  }
}
