// The LED demo server: one controlling client at a time, and timed toggling while nobody controls.
module BeagleDemo {
  import opened Wrappers

  type Client = nat

  datatype Setting = OnTime | OffTime | OtherAttribute

  datatype Event =
    | Connected(client: Client)
    | Disconnected(client: Client)
    | Check(client: Client, test: bool)
    | Write(setting: Setting, value: int)
    | Operate(isCounterReset: bool, newValue: int, test: bool)
    | Tick(now: nat)

  datatype State = State(controllingClient: Option<Client>, automaticOperationMode: bool,
                         ledOnTimeMs: int, ledOffTimeMs: int, opCnt: int,
                         ledStateValue: bool, nextLedToggleTime: int)

  // The counter is a 32-bit integer.
  function Int32(x: int): int {
    (x + 0x8000_0000) % 0x1_0000_0000 - 0x8000_0000
  }

  function Start(now: nat): State {
    State(None, true, 1000, 1000, 0, false, now + 1000)
  }

  // performCheckHandler accepts the command if this holds in the state it leaves behind.
  predicate AcceptedIn(s: State, e: Event) {
    e.Check? && !e.test && (s.controllingClient == None || s.controllingClient == Some(e.client))
  }

  predicate TogglesIn(s: State, e: Event) {
    e.Tick? && s.automaticOperationMode && s.nextLedToggleTime <= e.now
  }

  function Step(s: State, e: Event): State {
    match e
    case Connected(_) => s
    case Disconnected(c) =>
      if s.controllingClient == Some(c) then s.(controllingClient := None, automaticOperationMode := true) else s
    case Check(c, _) =>
      if s.controllingClient == None then s.(controllingClient := Some(c), automaticOperationMode := false) else s
    case Write(setting, value) =>
      if value < 0 || setting == OtherAttribute then s
      else if setting == OffTime then s.(ledOffTimeMs := value)
      else s.(ledOnTimeMs := value)
    case Operate(isCounterReset, newValue, test) =>
      if !test && isCounterReset then s.(opCnt := Int32(newValue)) else s
    case Tick(now) =>
      if !TogglesIn(s, e) then s
      else s.(nextLedToggleTime := now + Delay(s), ledStateValue := !s.ledStateValue,
              opCnt := if s.ledStateValue then s.opCnt else Int32(s.opCnt + 1))
  }

  // How long the state that a toggle enters is to last.
  function Delay(s: State): int {
    if s.ledStateValue then s.ledOffTimeMs else s.ledOnTimeMs
  }

  function Run(start: nat, es: seq<Event>): State {
    if es == [] then Start(start) else Step(Run(start, es[..|es| - 1]), es[|es| - 1])
  }

  // ---------------------------------------------------------------- the code

  datatype CheckHandlerResult = CONTROL_ACCEPTED | CONTROL_TEMPORARILY_UNAVAILABLE
  datatype AccessResult = SUCCESS | OBJECT_VALUE_INVALID | OBJECT_ACCESS_DENIED

  class Demo {
    var controllingClient: Option<Client>
    var automaticOperationMode: bool
    var ledOnTimeMs: int
    var ledOffTimeMs: int
    var opCnt: int
    var ledStateValue: bool
    var nextLedToggleTime: int

    function View(): State
      reads this
    {
      State(controllingClient, automaticOperationMode, ledOnTimeMs, ledOffTimeMs, opCnt, ledStateValue,
            nextLedToggleTime)
    }

    constructor (now: nat)
      ensures View() == Run(now, [])
    {
      controllingClient, automaticOperationMode := None, true;
      ledOnTimeMs, ledOffTimeMs, opCnt := 1000, 1000, 0;
      ledStateValue, nextLedToggleTime := false, now + 1000;
    }

    method ConnectionIndicationHandler(connection: Client, connected: bool)
      modifies this
      ensures View() == Step(old(View()), if connected then Event.Connected(connection)
                                          else Event.Disconnected(connection))
    {
      if !connected {
        if controllingClient == Some(connection) {
          controllingClient := None;
          automaticOperationMode := true;
        }
      }
    }

    method PerformCheckHandler(test: bool, connection: Client) returns (r: CheckHandlerResult)
      modifies this
      ensures View() == Step(old(View()), Event.Check(connection, test))
      ensures r == CONTROL_ACCEPTED <==> AcceptedIn(old(View()), Event.Check(connection, test))
      ensures r == CONTROL_ACCEPTED <==> !test && controllingClient == Some(connection)
    {
      if controllingClient == None {
        controllingClient := Some(connection);
        automaticOperationMode := false;
      }
      if test {
        return CONTROL_TEMPORARILY_UNAVAILABLE;
      }
      if controllingClient == Some(connection) {
        return CONTROL_ACCEPTED;
      } else {
        return CONTROL_TEMPORARILY_UNAVAILABLE;
      }
    }

    method ControlHandlerForInt32Controls(isCounterReset: bool, newValue: int, test: bool)
      modifies this
      ensures View() == Step(old(View()), Event.Operate(isCounterReset, newValue, test))
    {
      if test {
        return;
      }
      if isCounterReset {
        opCnt := Int32(newValue);
      }
    }

    method Int32WriteAccessHandler(dataAttribute: Setting, newValue: int) returns (r: AccessResult)
      modifies this
      ensures View() == Step(old(View()), Event.Write(dataAttribute, newValue))
      ensures r == SUCCESS <==> newValue >= 0 && dataAttribute != OtherAttribute
      ensures r == OBJECT_VALUE_INVALID <==> newValue < 0
    {
      if newValue < 0 {
        return OBJECT_VALUE_INVALID;
      }
      if dataAttribute == OffTime {
        ledOffTimeMs := newValue;
        return SUCCESS;
      }
      if dataAttribute == OnTime {
        ledOnTimeMs := newValue;
        return SUCCESS;
      }
      return OBJECT_ACCESS_DENIED;
    }

    // One turn of the loop in main.
    method LoopTurn(currentTime: nat)
      modifies this
      ensures View() == Step(old(View()), Event.Tick(currentTime))
    {
      if automaticOperationMode {
        if nextLedToggleTime <= currentTime {
          if ledStateValue {
            nextLedToggleTime := currentTime + ledOffTimeMs;
          } else {
            nextLedToggleTime := currentTime + ledOnTimeMs;
          }
          ledStateValue := !ledStateValue;
          if ledStateValue {
            opCnt := Int32(opCnt + 1);
          }
        }
      }
    }
  }

  // ---------------------------------------------------------------- over whole runs

  function Before(start: nat, es: seq<Event>, i: nat): State
    requires i <= |es|
  {
    Run(start, es[..i])
  }

  lemma RunStep(start: nat, es: seq<Event>, i: nat)
    requires i < |es|
    ensures Before(start, es, i + 1) == Step(Before(start, es, i), es[i])
  {
    assert es[..i + 1][..|es[..i + 1]| - 1] == es[..i];
  }

  predicate Accepted(start: nat, es: seq<Event>, i: nat)
    requires i < |es|
  {
    AcceptedIn(Before(start, es, i), es[i])
  }

  predicate Toggles(start: nat, es: seq<Event>, i: nat)
    requires i < |es|
  {
    TogglesIn(Before(start, es, i), es[i])
  }

  // Automatic mode holds exactly while no client controls, and the times never go negative.
  lemma {:induction false} Modes(start: nat, es: seq<Event>)
    ensures var s := Run(start, es);
            && (s.automaticOperationMode <==> s.controllingClient == None)
            && s.ledOnTimeMs >= 0 && s.ledOffTimeMs >= 0
  {
    if es != [] {
      Modes(start, es[..|es| - 1]);
    }
  }

  // Once a client is in control it stays so until it disconnects.
  lemma {:induction false} KeepsControl(start: nat, es: seq<Event>, i: nat, n: nat, c: Client)
    requires i <= n <= |es| && Before(start, es, i).controllingClient == Some(c)
    requires forall k :: i <= k < n ==> es[k] != Disconnected(c)
    ensures Before(start, es, n).controllingClient == Some(c)
    decreases n - i
  {
    if i < n {
      RunStep(start, es, i);
      KeepsControl(start, es, i + 1, n, c);
    }
  }

  // Between two accepted operations of different clients the first of them has disconnected.
  lemma ExclusiveControl(start: nat, es: seq<Event>, i: nat, j: nat)
    requires i < j < |es| && Accepted(start, es, i) && Accepted(start, es, j)
    requires es[i].client != es[j].client
    ensures exists k :: i < k < j && es[k] == Disconnected(es[i].client)
  {
    RunStep(start, es, i);
    if forall k :: i < k < j ==> es[k] != Disconnected(es[i].client) {
      KeepsControl(start, es, i + 1, j, es[i].client);
    }
  }

  // A client is in control exactly if some check of its own, a test included, found nobody in control
  // and it has not disconnected since.
  lemma {:induction false} ControlHasCause(start: nat, es: seq<Event>, c: Client)
    ensures Run(start, es).controllingClient == Some(c) <==>
            exists i :: 0 <= i < |es| && es[i].Check? && es[i].client == c
              && Before(start, es, i).controllingClient == None
              && forall k :: i < k < |es| ==> es[k] != Disconnected(c)
  {
    assert es[..|es|] == es;
    if i: nat :| i < |es| && es[i].Check? && es[i].client == c && Before(start, es, i).controllingClient == None
                 && forall k :: i < k < |es| ==> es[k] != Disconnected(c) {
      RunStep(start, es, i);
      KeepsControl(start, es, i + 1, |es|, c);
    }
    if Run(start, es).controllingClient == Some(c) {
      var i := FindCause(start, es, c);
    }
  }

  lemma {:induction false} FindCause(start: nat, es: seq<Event>, c: Client) returns (i: nat)
    requires Run(start, es).controllingClient == Some(c)
    ensures i < |es| && es[i].Check? && es[i].client == c && Before(start, es, i).controllingClient == None
    ensures forall k :: i < k < |es| ==> es[k] != Disconnected(c)
  {
    var n := |es| - 1;
    var before := es[..n];
    if Run(start, before).controllingClient == Some(c) {
      i := FindCause(start, before, c);
      assert es[..i] == before[..i];
      assert forall k :: 0 <= k < n ==> es[k] == before[k];
    } else {
      i := n;
    }
  }

  // No event but a toggle moves the deadline.
  lemma {:induction false} DeadlineStays(start: nat, es: seq<Event>, i: nat, n: nat)
    requires i <= n <= |es| && forall k :: i <= k < n ==> !Toggles(start, es, k)
    ensures Before(start, es, n).nextLedToggleTime == Before(start, es, i).nextLedToggleTime
    ensures Before(start, es, n).ledStateValue == Before(start, es, i).ledStateValue
    decreases n - i
  {
    if i < n {
      RunStep(start, es, i);
      assert !Toggles(start, es, i);
      DeadlineStays(start, es, i + 1, n);
    }
  }

  // An operation is accepted exactly if it is no test and leaves its own client in control.
  lemma AcceptedMeans(start: nat, es: seq<Event>, i: nat)
    requires i < |es|
    ensures Accepted(start, es, i) <==>
              es[i].Check? && !es[i].test && Before(start, es, i + 1).controllingClient == Some(es[i].client)
  {
    RunStep(start, es, i);
  }

  // The last accepted on or off time, read off the events.
  function TimeInForce(es: seq<Event>, setting: Setting): int {
    if es == [] then 1000
    else
      var e := es[|es| - 1];
      if e.Write? && e.setting == setting && e.value >= 0 then e.value else TimeInForce(es[..|es| - 1], setting)
  }

  lemma {:induction false} TimesInForce(start: nat, es: seq<Event>)
    ensures Run(start, es).ledOnTimeMs == TimeInForce(es, OnTime)
    ensures Run(start, es).ledOffTimeMs == TimeInForce(es, OffTime)
  {
    if es != [] {
      TimesInForce(start, es[..|es| - 1]);
    }
  }

  // The LED changes at event i.
  predicate Flips(start: nat, es: seq<Event>, i: nat)
    requires i < |es|
  {
    Before(start, es, i + 1).ledStateValue != Before(start, es, i).ledStateValue
  }

  lemma FlipsToggle(start: nat, es: seq<Event>, i: nat)
    requires i < |es|
    ensures Flips(start, es, i) <==> Toggles(start, es, i)
  {
    RunStep(start, es, i);
  }

  // The LED changes at a turn of the loop exactly if nobody is in control and the deadline has come; the deadline
  // then moves to the on time after the turn if the LED went on, to the off time if it went off, and stays otherwise.
  lemma TurnFlips(start: nat, es: seq<Event>, i: nat)
    requires i < |es|
    ensures var s, t, e := Before(start, es, i), Before(start, es, i + 1), es[i];
            && (Flips(start, es, i) <==> e.Tick? && s.controllingClient == None && s.nextLedToggleTime <= e.now)
            && t.nextLedToggleTime == (
                 if !Flips(start, es, i) then s.nextLedToggleTime
                 else e.now + TimeInForce(es[..i], if t.ledStateValue then OnTime else OffTime))
  {
    RunStep(start, es, i);
    Modes(start, es[..i]);
    TimesInForce(start, es[..i]);
  }

  // Consecutive changes of the LED are at least as far apart as the time in force at the earlier one, on or off as it
  // went, and happen while nobody is in control.
  lemma ToggleSpacing(start: nat, es: seq<Event>, i: nat, j: nat)
    requires i < j < |es| && Flips(start, es, i) && Flips(start, es, j)
    requires forall k :: i < k < j ==> !Flips(start, es, k)
    ensures es[i].Tick? && es[j].Tick?
    ensures var time := TimeInForce(es[..i], if Before(start, es, i + 1).ledStateValue then OnTime else OffTime);
            time >= 0 && es[j].now >= es[i].now + time
    ensures Before(start, es, j).ledStateValue != Before(start, es, i).ledStateValue
    ensures Before(start, es, i).controllingClient == None && Before(start, es, j).controllingClient == None
  {
    forall k | i < k < j
      ensures !Toggles(start, es, k)
    {
      FlipsToggle(start, es, k);
    }
    TurnFlips(start, es, i);
    TurnFlips(start, es, j);
    DeadlineStays(start, es, i + 1, j);
    Modes(start, es[..i]);
    TimesInForce(start, es[..i]);
  }

  // The first change of the LED comes a second after the start at the earliest.
  lemma FirstFlip(start: nat, es: seq<Event>, j: nat)
    requires j < |es| && Flips(start, es, j) && forall k :: 0 <= k < j ==> !Flips(start, es, k)
    ensures es[j].Tick? && es[j].now >= start + 1000 && Before(start, es, j + 1).ledStateValue
  {
    forall k | 0 <= k < j
      ensures !Toggles(start, es, k)
    {
      FlipsToggle(start, es, k);
    }
    TurnFlips(start, es, j);
    DeadlineStays(start, es, 0, j);
    assert es[..0] == [];
  }

  // The value of the last counter reset, and the rising edges since, read off the run.
  function LastReset(es: seq<Event>): int {
    if es == [] then 0
    else
      var e := es[|es| - 1];
      if e.Operate? && !e.test && e.isCounterReset then e.newValue else LastReset(es[..|es| - 1])
  }

  function RisingEdges(start: nat, es: seq<Event>): nat {
    if es == [] then 0
    else
      var before, e := es[..|es| - 1], es[|es| - 1];
      if e.Operate? && !e.test && e.isCounterReset then 0
      else
        RisingEdges(start, before)
        + if !Run(start, before).ledStateValue && Run(start, es).ledStateValue then 1 else 0
  }

  lemma Wraps(n: int) returns (wraps: int)
    ensures n == Int32(n) + wraps * 0x1_0000_0000 && -0x8000_0000 <= Int32(n) < 0x8000_0000
  {
    wraps := (n + 0x8000_0000) / 0x1_0000_0000;
  }

  // What a single event does to the counter.
  lemma OneCount(start: nat, before: seq<Event>, e: Event)
    ensures var s, t := Run(start, before), Run(start, before + [e]);
            t.opCnt == if e.Operate? && !e.test && e.isCounterReset then Int32(e.newValue)
                       else if !s.ledStateValue && t.ledStateValue then Int32(s.opCnt + 1)
                       else s.opCnt
  {
    assert (before + [e])[..|before|] == before;
  }

  // The counter is the last reset value plus the rising edges since, up to a number of times round the 32-bit range.
  lemma {:induction false} CounterCounts(start: nat, es: seq<Event>) returns (rounds: int)
    ensures -0x8000_0000 <= Run(start, es).opCnt < 0x8000_0000
    ensures LastReset(es) + RisingEdges(start, es) == Run(start, es).opCnt + rounds * 0x1_0000_0000
  {
    rounds := 0;
    if es != [] {
      var before, e := es[..|es| - 1], es[|es| - 1];
      assert es == before + [e];
      rounds := CounterCounts(start, before);
      OneCount(start, before, e);
      if e.Operate? && !e.test && e.isCounterReset {
        rounds := Wraps(e.newValue);
      } else if !Run(start, before).ledStateValue && Run(start, es).ledStateValue {
        var more := Wraps(Run(start, before).opCnt + 1);
        rounds := rounds + more;
      }
    }
  }
}
