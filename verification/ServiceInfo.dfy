/**
 * Counting the calls of services and actions in a bag: each call shows up as up to four
 * introspection events, and is counted once per client and sequence number and direction.
 */
module ServiceInfo {
  import opened Basics
  import opened TopicFilter
  import Sums

  type ClientId = seq<int>

  /** Event types 0 and 1 are a request sent and received, 2 and 3 a response sent and received. */
  datatype ServiceEventInfo = ServiceEventInfo(eventType: nat, client: ClientId, sequence: int)

  /** None is a payload that does not deserialize as a service event. */
  datatype Message = Message(topic: string, event: Option<ServiceEventInfo>)

  datatype TopicType = TopicType(name: string, typeName: string)

  // ----- Topic names -----

  datatype ActionInterface = SendGoalEvent | CancelGoalEvent | GetResultEvent | FeedbackTopic | StatusTopic

  function Postfix(i: ActionInterface): string {
    match i
    case SendGoalEvent => ACTION_POSTFIXES[0]
    case CancelGoalEvent => ACTION_POSTFIXES[1]
    case GetResultEvent => ACTION_POSTFIXES[2]
    case FeedbackTopic => ACTION_POSTFIXES[3]
    case StatusTopic => ACTION_POSTFIXES[4]
  }

  function InterfaceOf(topic: string): (r: Option<ActionInterface>)
    ensures r.Some? ==> EndsWith(topic, Postfix(r.value))
  {
    if EndsWith(topic, Postfix(SendGoalEvent)) then Some(SendGoalEvent)
    else if EndsWith(topic, Postfix(CancelGoalEvent)) then Some(CancelGoalEvent)
    else if EndsWith(topic, Postfix(GetResultEvent)) then Some(GetResultEvent)
    else if EndsWith(topic, Postfix(FeedbackTopic)) then Some(FeedbackTopic)
    else if EndsWith(topic, Postfix(StatusTopic)) then Some(StatusTopic)
    else None
  }

  /** The postfixes exclude each other, so the order in which they are tried does not matter. */
  lemma OneInterface(topic: string, i: ActionInterface)
    requires EndsWith(topic, Postfix(i))
    ensures InterfaceOf(topic) == Some(i)
  {
    LastCharacters(topic, i);
    LastCharacters(topic, InterfaceOf(topic).value);
  }

  /** What the end of a name tells about its postfix. */
  lemma LastCharacters(topic: string, i: ActionInterface)
    requires EndsWith(topic, Postfix(i))
    ensures |topic| > 15
    ensures i.StatusTopic? <==> topic[|topic| - 1] == 's'
    ensures i.FeedbackTopic? <==> topic[|topic| - 1] == 'k'
    ensures !i.StatusTopic? && !i.FeedbackTopic? ==> |topic| > 21
    ensures |topic| > 21 ==> (i.GetResultEvent? ==> topic[|topic| - 16] == 't')
    ensures |topic| > 21 ==> (i.SendGoalEvent? ==> topic[|topic| - 16] == 'l' && topic[|topic| - 21] == 'd')
    ensures |topic| > 21 ==> (i.CancelGoalEvent? ==> topic[|topic| - 16] == 'l' && topic[|topic| - 21] == 'l')
  {
    var p := Postfix(i);
    assert topic[|topic| - |p|..][|p| - 1] == p[|p| - 1];
    if !i.StatusTopic? && !i.FeedbackTopic? {
      assert topic[|topic| - |p|..][|p| - 16] == p[|p| - 16];
      assert topic[|topic| - |p|..][|p| - 21] == p[|p| - 21];
    }
  }

  predicate IsServiceEventTopic(t: TopicType) {
    && EndsWith(t.name, SERVICE_EVENT_POSTFIX) && !Contains(t.name, "/_action/")
    && EndsWith(t.typeName, "_Event") && Contains(t.typeName, "/srv/")
  }

  /** Whether a message type fits an action interface is a pattern match on type names. */
  predicate BelongsToAction(t: TopicType, fits: (ActionInterface, string) -> bool) {
    InterfaceOf(t.name).Some? && fits(InterfaceOf(t.name).value, t.typeName)
  }

  function ActionName(topic: string): string
    requires InterfaceOf(topic).Some?
  {
    topic[..|topic| - |Postfix(InterfaceOf(topic).value)|]
  }

  datatype Kind = ActionTopic(action: string) | ServiceTopic | RegularTopic

  function KindOf(fits: (ActionInterface, string) -> bool): TopicType -> Kind {
    (t: TopicType) =>
      if BelongsToAction(t, fits) then ActionTopic(ActionName(t.name))
      else if IsServiceEventTopic(t) then ServiceTopic
      else RegularTopic
  }

  /** The names built up before reading: action interface topics with their action, service event topics. */
  datatype Names = Names(actions: map<string, string>, services: set<string>)

  function AddTopic(names: Names, t: TopicType, kind: Kind): Names {
    match kind
    case ActionTopic(action) => names.(actions := names.actions[t.name := action])
    case ServiceTopic => names.(services := names.services + {t.name})
    case RegularTopic => names
  }

  function NamesIn(topics: seq<TopicType>, kindOf: TopicType -> Kind): Names {
    if topics == [] then Names(map[], {})
    else
      var last := topics[|topics| - 1];
      AddTopic(NamesIn(topics[..|topics| - 1], kindOf), last, kindOf(last))
  }

  method CollectNames(topics: seq<TopicType>, kindOf: TopicType -> Kind) returns (names: Names)
    ensures names == NamesIn(topics, kindOf)
  {
    names := Names(map[], {});
    for k := 0 to |topics|
      invariant names == NamesIn(topics[..k], kindOf)
    {
      assert topics[..k + 1][..k] == topics[..k];
      names := AddTopic(names, topics[k], kindOf(topics[k]));
    }
    assert topics[..|topics|] == topics;
  }

  lemma {:induction false} NamesMeaning(topics: seq<TopicType>, kindOf: TopicType -> Kind, n: string)
    ensures var names := NamesIn(topics, kindOf);
      && (n in names.services <==> exists t | t in topics :: t.name == n && kindOf(t) == ServiceTopic)
      && (n in names.actions <==> exists t | t in topics :: t.name == n && kindOf(t).ActionTopic?)
      && (n in names.actions ==>
            exists t | t in topics :: t.name == n && kindOf(t) == ActionTopic(names.actions[n]))
  {
    if topics != [] {
      var most, t := topics[..|topics| - 1], topics[|topics| - 1];
      NamesMeaning(most, kindOf, n);
      assert topics == most + [t];
    }
  }

  // ----- What a message stands for -----

  datatype Owner =
    | Service(topic: string)
    | SendGoal(action: string)
    | CancelGoal(action: string)
    | GetResult(action: string)

  datatype Slot = Slot(owner: Owner, response: bool)

  datatype Role = Ignored | Feedback(action: string) | Status(action: string) | Calls(owner: Owner)

  function RoleFor(names: Names): string -> Role {
    (topic: string) =>
      if topic in names.actions then ActionRole(InterfaceOf(topic), names.actions[topic])
      else if topic in names.services then Calls(Service(topic))
      else Ignored
  }

  function ActionRole(i: Option<ActionInterface>, action: string): Role {
    match i
    case Some(FeedbackTopic) => Feedback(action)
    case Some(StatusTopic) => Status(action)
    case Some(SendGoalEvent) => Calls(SendGoal(action))
    case Some(GetResultEvent) => Calls(GetResult(action))
    case Some(CancelGoalEvent) => Calls(CancelGoal(action))
    case None => Ignored
  }

  /** Registered topics with an action interface are those of actions, the others services: asking
      for the interface of a name tells the two apart. */
  lemma InterfaceTellsApart(topics: seq<TopicType>, fits: (ActionInterface, string) -> bool, n: string)
    ensures var names := NamesIn(topics, KindOf(fits));
      && (n in names.actions ==> InterfaceOf(n).Some? && names.actions[n] == ActionName(n))
      && (n in names.services ==> InterfaceOf(n).None?)
  {
    NamesMeaning(topics, KindOf(fits), n);
    if InterfaceOf(n).Some? { PostfixMarked(n); }
  }

  /** Every registered action topic has an interface and names its action, and no service topic has. */
  ghost predicate WellNamed(names: Names) {
    && (forall n | n in names.actions :: InterfaceOf(n).Some? && names.actions[n] == ActionName(n))
    && (forall n | n in names.services :: InterfaceOf(n).None?)
  }

  lemma RegisteredNames(topics: seq<TopicType>, fits: (ActionInterface, string) -> bool)
    ensures WellNamed(NamesIn(topics, KindOf(fits)))
  {
    forall n | n in NamesIn(topics, KindOf(fits)).actions
      ensures InterfaceOf(n).Some? && NamesIn(topics, KindOf(fits)).actions[n] == ActionName(n)
    {
      InterfaceTellsApart(topics, fits, n);
    }
    forall n | n in NamesIn(topics, KindOf(fits)).services ensures InterfaceOf(n).None? {
      InterfaceTellsApart(topics, fits, n);
    }
  }

  /** Of all topics only this one has the role, and only if it is registered. */
  ghost predicate StandsAlone(role: string -> Role, r: Role, topic: string, registered: bool) {
    forall t :: role(t) == r <==> registered && t == topic
  }

  /** Roles tell interfaces and actions apart. */
  lemma ActionRoles(i: Option<ActionInterface>, j: ActionInterface, a: string, b: string)
    ensures ActionRole(i, a) == ActionRole(Some(j), b) <==> i == Some(j) && a == b
    ensures !ActionRole(Some(j), b).Ignored?
    ensures ActionRole(i, a).Calls? ==> !ActionRole(i, a).owner.Service?
  {
  }

  lemma NameParts(t: string)
    requires InterfaceOf(t).Some?
    ensures t == ActionName(t) + Postfix(InterfaceOf(t).value)
  {
    FrontAndEnd(t, Postfix(InterfaceOf(t).value));
  }

  lemma RoleOfInterface(names: Names, action: string, i: ActionInterface, postfix: string)
    requires WellNamed(names) && action != "" && postfix == Postfix(i)
    ensures StandsAlone(RoleFor(names), ActionRole(Some(i), action), action + postfix,
                        action + postfix in names.actions)
  {
    EndsInPostfix(action, i);
    forall t ensures RoleFor(names)(t) == ActionRole(Some(i), action) <==>
                       action + postfix in names.actions && t == action + postfix
    {
      if t in names.actions {
        ActionRoles(InterfaceOf(t), i, names.actions[t], action);
        NameParts(t);
      }
    }
  }

  /** The topics of an action are told apart by their postfix, and all count for that action. */
  lemma RoleOfActionTopic(names: Names, action: string)
    requires WellNamed(names) && action != ""
    ensures var t := action + "/_action/send_goal/_service_event";
      StandsAlone(RoleFor(names), Calls(SendGoal(action)), t, t in names.actions)
    ensures var t := action + "/_action/cancel_goal/_service_event";
      StandsAlone(RoleFor(names), Calls(CancelGoal(action)), t, t in names.actions)
    ensures var t := action + "/_action/get_result/_service_event";
      StandsAlone(RoleFor(names), Calls(GetResult(action)), t, t in names.actions)
    ensures var t := action + "/_action/feedback"; StandsAlone(RoleFor(names), Feedback(action), t, t in names.actions)
    ensures var t := action + "/_action/status"; StandsAlone(RoleFor(names), Status(action), t, t in names.actions)
  {
    RoleOfInterface(names, action, SendGoalEvent, "/_action/send_goal/_service_event");
    RoleOfInterface(names, action, CancelGoalEvent, "/_action/cancel_goal/_service_event");
    RoleOfInterface(names, action, GetResultEvent, "/_action/get_result/_service_event");
    RoleOfInterface(names, action, FeedbackTopic, "/_action/feedback");
    RoleOfInterface(names, action, StatusTopic, "/_action/status");
  }

  /** Services are registered by service event topics outside of actions with an event type. */
  lemma RegisteredServices(topics: seq<TopicType>, fits: (ActionInterface, string) -> bool, n: string)
    ensures n in NamesIn(topics, KindOf(fits)).services <==>
      exists t | t in topics ::
        && t.name == n && EndsWith(n, "/_service_event") && !Contains(n, "/_action/")
        && EndsWith(t.typeName, "_Event") && Contains(t.typeName, "/srv/")
  {
    NamesMeaning(topics, KindOf(fits), n);
    forall t | t in topics && t.name == n
      ensures KindOf(fits)(t) == ServiceTopic <==>
        && EndsWith(n, "/_service_event") && !Contains(n, "/_action/")
        && EndsWith(t.typeName, "_Event") && Contains(t.typeName, "/srv/")
    {
      if InterfaceOf(n).Some? { PostfixMarked(n); }
    }
  }

  predicate Offered(topics: seq<TopicType>, n: string, fits: string -> bool) {
    exists t | t in topics :: t.name == n && fits(t.typeName)
  }

  /** Actions are registered by the five topics of their interfaces, each with a type that fits. */
  lemma RegisteredActions(topics: seq<TopicType>, fits: (ActionInterface, string) -> bool, action: string)
    requires action != ""
    ensures var actions := NamesIn(topics, KindOf(fits)).actions;
      && (var t := action + "/_action/send_goal/_service_event";
          t in actions <==> Offered(topics, t, typeName => fits(SendGoalEvent, typeName)))
      && (var t := action + "/_action/cancel_goal/_service_event";
          t in actions <==> Offered(topics, t, typeName => fits(CancelGoalEvent, typeName)))
      && (var t := action + "/_action/get_result/_service_event";
          t in actions <==> Offered(topics, t, typeName => fits(GetResultEvent, typeName)))
      && (var t := action + "/_action/feedback";
          t in actions <==> Offered(topics, t, typeName => fits(FeedbackTopic, typeName)))
      && (var t := action + "/_action/status";
          t in actions <==> Offered(topics, t, typeName => fits(StatusTopic, typeName)))
  {
    RegisteredByInterface(topics, fits, action, SendGoalEvent, "/_action/send_goal/_service_event");
    RegisteredByInterface(topics, fits, action, CancelGoalEvent, "/_action/cancel_goal/_service_event");
    RegisteredByInterface(topics, fits, action, GetResultEvent, "/_action/get_result/_service_event");
    RegisteredByInterface(topics, fits, action, FeedbackTopic, "/_action/feedback");
    RegisteredByInterface(topics, fits, action, StatusTopic, "/_action/status");
  }

  lemma RegisteredByInterface(topics: seq<TopicType>, fits: (ActionInterface, string) -> bool, action: string,
                              i: ActionInterface, postfix: string)
    requires action != "" && postfix == Postfix(i)
    ensures action + postfix in NamesIn(topics, KindOf(fits)).actions <==>
            Offered(topics, action + postfix, typeName => fits(i, typeName))
  {
    EndsInPostfix(action, i);
    NamesMeaning(topics, KindOf(fits), action + postfix);
  }

  /** A registered service topic stands for the calls of that service. */
  lemma RoleOfService(names: Names, t: string)
    requires WellNamed(names)
    ensures StandsAlone(RoleFor(names), Calls(Service(t)), t, t in names.services)
  {
    forall n ensures RoleFor(names)(n) == Calls(Service(t)) <==> t in names.services && n == t {
      if n in names.actions {
        ActionRoles(InterfaceOf(n), SendGoalEvent, names.actions[n], "");
        assert n !in names.services;
      }
    }
  }

  lemma EndsInPostfix(action: string, i: ActionInterface)
    requires action != ""
    ensures InterfaceOf(action + Postfix(i)) == Some(i) && ActionName(action + Postfix(i)) == action
  {
    var n, p := action + Postfix(i), Postfix(i);
    assert n[|n| - |p|..] == p && n[..|n| - |p|] == action;
    OneInterface(n, i);
  }

  lemma PostfixMarked(n: string)
    requires InterfaceOf(n).Some?
    ensures Contains(n, "/_action/")
  {
    var i := InterfaceOf(n).value;
    var k := match i case SendGoalEvent => 0 case CancelGoalEvent => 1 case GetResultEvent => 2
                     case FeedbackTopic => 3 case StatusTopic => 4;
    assert EndsWith(n, ACTION_POSTFIXES[k]);
    ActionPostfixContains(n);
  }

  datatype Reading = Skip | Tick(feedback: bool, action: string) | Call(slot: Slot, client: ClientId, sequence: int)

  datatype Failure = CannotDeserialize(topic: string) | InvalidEventType(eventType: nat)

  function Read(role: string -> Role, m: Message): Result<Reading, Failure> {
    match role(m.topic)
    case Ignored => Ok(Skip)
    case Feedback(action) => Ok(Tick(true, action))
    case Status(action) => Ok(Tick(false, action))
    case Calls(owner) =>
      if m.event.None? then Err(CannotDeserialize(m.topic))
      else if m.event.value.eventType > 3 then Err(InvalidEventType(m.event.value.eventType))
      else Ok(Call(Slot(owner, m.event.value.eventType >= 2), m.event.value.client, m.event.value.sequence))
  }

  // ----- The counts, stated over the messages -----

  predicate IsCall(role: string -> Role, m: Message, slot: Slot) {
    Read(role, m).Ok? && Read(role, m).value.Call? && Read(role, m).value.slot == slot
  }

  function CallOf(m: Message): (ClientId, int)
    requires m.event.Some?
  {
    (m.event.value.client, m.event.value.sequence)
  }

  /** The distinct calls of a slot. */
  function Distinct(role: string -> Role, messages: seq<Message>, slot: Slot): set<(ClientId, int)> {
    set m | m in messages && IsCall(role, m, slot) :: CallOf(m)
  }

  /** Plain occurrences, each message counting one. */
  function Ticks(role: string -> Role, messages: seq<Message>, tick: Reading): nat {
    Sums.Sum(messages, IsTick(role, tick))
  }

  function IsTick(role: string -> Role, tick: Reading): Message -> nat {
    (m: Message) => if Read(role, m) == Ok(tick) then 1 else 0
  }

  function FirstFailure(role: string -> Role, messages: seq<Message>): Option<Failure> {
    if messages == [] then None
    else match Read(role, messages[0])
      case Err(e) => Some(e)
      case Ok(_) => FirstFailure(role, messages[1..])
  }

  lemma {:induction false} FailureMeaning(role: string -> Role, messages: seq<Message>, k: nat)
    requires k <= |messages| && forall i | 0 <= i < k :: Read(role, messages[i]).Ok?
    ensures k < |messages| && Read(role, messages[k]).Err? ==>
              FirstFailure(role, messages) == Some(Read(role, messages[k]).error)
    ensures k == |messages| ==> FirstFailure(role, messages) == None
  {
    if k > 0 {
      assert forall i | 0 <= i < k - 1 :: messages[1..][i] == messages[i + 1];
      FailureMeaning(role, messages[1..], k - 1);
    }
  }

  /** The order of the messages matters neither for the counts nor for whether there are any. */
  lemma OrderIrrelevant(role: string -> Role, a: seq<Message>, b: seq<Message>)
    requires multiset(a) == multiset(b)
    ensures forall slot :: Distinct(role, a, slot) == Distinct(role, b, slot)
    ensures forall tick :: Ticks(role, a, tick) == Ticks(role, b, tick)
    ensures FirstFailure(role, a).None? <==> FirstFailure(role, b).None?
  {
    forall m ensures m in a <==> m in b { assert m in multiset(a) <==> m in multiset(b); }
    forall tick { Sums.SumPermuted(a, b, IsTick(role, tick)); }
    NoFailure(role, a);
    NoFailure(role, b);
  }

  lemma {:induction false} NoFailure(role: string -> Role, messages: seq<Message>)
    ensures FirstFailure(role, messages).None? <==> forall m | m in messages :: Read(role, m).Ok?
  {
    if messages != [] {
      NoFailure(role, messages[1..]);
      assert messages == [messages[0]] + messages[1..];
    }
  }

  lemma DistinctSnoc(role: string -> Role, messages: seq<Message>, m: Message, slot: Slot)
    ensures Distinct(role, messages + [m], slot) ==
            Distinct(role, messages, slot) + if IsCall(role, m, slot) then {CallOf(m)} else {}
  {
    var a, b := Distinct(role, messages + [m], slot), Distinct(role, messages, slot);
    assert m in messages + [m] && forall x | x in messages :: x in messages + [m];
    forall c ensures c in a <==> c in b || (IsCall(role, m, slot) && c == CallOf(m)) {
      if c in a { var x :| x in messages + [m] && IsCall(role, x, slot) && CallOf(x) == c; }
    }
  }

  predicate SameDirection(a: nat, b: nat) { a <= 3 && b <= 3 && (a >= 2 <==> b >= 2) }

  /** The sent and the received event of a call count once, wherever in the bag they are. */
  lemma SentAndReceivedOnce(role: string -> Role, messages: seq<Message>, first: Message, second: Message, slot: Slot)
    requires first in messages && first.event.Some? && second.topic == first.topic
    requires second.event.Some? && second.event.value == first.event.value.(eventType := second.event.value.eventType)
    requires SameDirection(first.event.value.eventType, second.event.value.eventType)
    ensures Distinct(role, messages + [second], slot) == Distinct(role, messages, slot)
  {
    DistinctSnoc(role, messages, second, slot);
    assert IsCall(role, second, slot) ==> IsCall(role, first, slot) && CallOf(second) == CallOf(first);
  }

  // ----- The tallies kept while reading -----

  type Seen = map<ClientId, set<int>>

  function CallsIn(seen: Seen): set<(ClientId, int)> {
    set c, s | c in seen && s in seen[c] :: (c, s)
  }

  function Note(seen: Seen, client: ClientId, sequence: int): (r: Seen)
    ensures CallsIn(r) == CallsIn(seen) + {(client, sequence)}
  {
    seen[client := (if client in seen then seen[client] else {}) + {sequence}]
  }

  lemma AnElement<T>(s: set<T>) returns (x: T)
    requires |s| > 0
    ensures x in s
  {
    x :| x in s;
  }

  function PairsOf(client: ClientId, sequences: set<int>): set<(ClientId, int)> {
    set s | s in sequences :: (client, s)
  }

  lemma {:induction false} PairsOfClient(client: ClientId, sequences: set<int>)
    ensures |PairsOf(client, sequences)| == |sequences|
    decreases |sequences|
  {
    if |sequences| == 0 {
      assert PairsOf(client, sequences) == {};
    } else {
      var t := AnElement(sequences);
      PairsOfClient(client, sequences - {t});
      assert PairsOf(client, sequences) == PairsOf(client, sequences - {t}) + {(client, t)};
    }
  }

  lemma CallsOfOneMore(seen: Seen, client: ClientId, sequences: set<int>)
    requires client !in seen
    ensures |CallsIn(seen[client := sequences])| == |CallsIn(seen)| + |sequences|
  {
    assert CallsIn(seen[client := sequences]) == CallsIn(seen) + PairsOf(client, sequences);
    assert CallsIn(seen) !! PairsOf(client, sequences);
    PairsOfClient(client, sequences);
  }

  /** Summing set sizes over the clients counts the distinct calls. */
  method NumberOfMessages(seen: Seen) returns (n: nat)
    ensures n == |CallsIn(seen)|
  {
    n := 0;
    var left := seen.Keys;
    ghost var done: Seen := map[];
    while left != {}
      invariant left <= seen.Keys
      invariant done == map c | c in seen && c !in left :: seen[c]
      invariant n == |CallsIn(done)|
      decreases |left|
    {
      var c :| c in left;
      CallsOfOneMore(done, c, seen[c]);
      n := n + |seen[c]|;
      left := left - {c};
      done := done[c := seen[c]];
    }
    assert done == seen;
  }

  datatype Tallies = Tallies(seen: map<Slot, Seen>, feedback: map<string, nat>, status: map<string, nat>) {
    predicate Covers(slots: set<Slot>, actions: set<string>) {
      seen.Keys == slots && feedback.Keys == actions && status.Keys == actions
    }
  }

  predicate Belongs(r: Role, slots: set<Slot>, actions: set<string>) {
    match r
    case Ignored => true
    case Feedback(action) => action in actions
    case Status(action) => action in actions
    case Calls(owner) => Slot(owner, false) in slots && Slot(owner, true) in slots
  }

  /** Every role a topic can have belongs to a known service or action. */
  ghost predicate Known(role: string -> Role, slots: set<Slot>, actions: set<string>) {
    forall topic :: Belongs(role(topic), slots, actions)
  }

  ghost predicate Tallied(t: Tallies, role: string -> Role, messages: seq<Message>) {
    && (forall slot | slot in t.seen :: CallsIn(t.seen[slot]) == Distinct(role, messages, slot))
    && (forall a | a in t.feedback :: t.feedback[a] == Ticks(role, messages, Tick(true, a)))
    && (forall a | a in t.status :: t.status[a] == Ticks(role, messages, Tick(false, a)))
  }

  predicate Recordable(t: Tallies, reading: Reading) {
    && (reading.Call? ==> reading.slot in t.seen)
    && (reading.Tick? ==> reading.action in t.feedback && reading.action in t.status)
  }

  function Record(t: Tallies, reading: Reading): Tallies
    requires Recordable(t, reading)
  {
    match reading
    case Skip => t
    case Tick(true, a) => t.(feedback := t.feedback[a := t.feedback[a] + 1])
    case Tick(false, a) => t.(status := t.status[a := t.status[a] + 1])
    case Call(slot, client, sequence) => t.(seen := t.seen[slot := Note(t.seen[slot], client, sequence)])
  }

  lemma RecordTallies(t: Tallies, role: string -> Role, messages: seq<Message>, m: Message)
    requires Tallied(t, role, messages) && Read(role, m).Ok? && Recordable(t, Read(role, m).value)
    ensures Tallied(Record(t, Read(role, m).value), role, messages + [m])
  {
    var r := Record(t, Read(role, m).value);
    assert (messages + [m])[..|messages|] == messages;
    forall slot | slot in r.seen ensures CallsIn(r.seen[slot]) == Distinct(role, messages + [m], slot) {
      DistinctSnoc(role, messages, m, slot);
    }
  }

  lemma KnownIsRecordable(t: Tallies, role: string -> Role, m: Message, slots: set<Slot>, actions: set<string>)
    requires Known(role, slots, actions) && t.Covers(slots, actions) && Read(role, m).Ok?
    ensures Recordable(t, Read(role, m).value) && Record(t, Read(role, m).value).Covers(slots, actions)
  {
    assert Belongs(role(m.topic), slots, actions);
  }

  /** The reading loop. */
  method ReadMessages(role: string -> Role, messages: seq<Message>, start: Tallies,
                      slots: set<Slot>, actions: set<string>)
    returns (r: Result<Tallies, Failure>)
    requires Known(role, slots, actions) && start.Covers(slots, actions) && Tallied(start, role, [])
    ensures match FirstFailure(role, messages)
            case Some(e) => r == Err(e)
            case None => r.Ok? && r.value.Covers(slots, actions) && Tallied(r.value, role, messages)
  {
    var t := start;
    for k := 0 to |messages|
      invariant forall i | 0 <= i < k :: Read(role, messages[i]).Ok?
      invariant t.Covers(slots, actions) && Tallied(t, role, messages[..k])
    {
      var reading := Read(role, messages[k]);
      FailureMeaning(role, messages, k);
      if reading.Err? { return Err(reading.error); }
      KnownIsRecordable(t, role, messages[k], slots, actions);
      RecordTallies(t, role, messages[..k], messages[k]);
      t := Record(t, reading.value);
      assert messages[..k] + [messages[k]] == messages[..k + 1];
    }
    FailureMeaning(role, messages, |messages|);
    assert messages[..|messages|] == messages;
    return Ok(t);
  }

  datatype Report = Report(calls: map<Slot, nat>, feedback: map<string, nat>, status: map<string, nat>)

  /** The counts a report must hold. */
  ghost predicate Exact(report: Report, role: string -> Role, messages: seq<Message>) {
    && (forall slot | slot in report.calls :: report.calls[slot] == |Distinct(role, messages, slot)|)
    && (forall a | a in report.feedback :: report.feedback[a] == Ticks(role, messages, Tick(true, a)))
    && (forall a | a in report.status :: report.status[a] == Ticks(role, messages, Tick(false, a)))
  }

  /** Turning the tallies into counts, slot by slot. */
  method CountCalls(seen: map<Slot, Seen>) returns (calls: map<Slot, nat>)
    ensures calls.Keys == seen.Keys && forall slot | slot in seen :: calls[slot] == |CallsIn(seen[slot])|
  {
    calls := map[];
    var left := seen.Keys;
    while left != {}
      invariant left <= seen.Keys && calls.Keys == seen.Keys - left
      invariant forall slot | slot in calls :: calls[slot] == |CallsIn(seen[slot])|
      decreases |left|
    {
      var slot :| slot in left;
      var n := NumberOfMessages(seen[slot]);
      calls := calls[slot := n];
      left := left - {slot};
    }
  }

  function Owners(names: Names): set<Owner> {
    (set t | t in names.services :: Service(t))
    + (set t | t in names.actions :: SendGoal(names.actions[t]))
    + (set t | t in names.actions :: CancelGoal(names.actions[t]))
    + (set t | t in names.actions :: GetResult(names.actions[t]))
  }

  function Slots(names: Names): set<Slot> {
    (set o | o in Owners(names) :: Slot(o, false)) + (set o | o in Owners(names) :: Slot(o, true))
  }

  function Actions(names: Names): set<string> { set t | t in names.actions :: names.actions[t] }

  lemma ActionRoleBelongs(names: Names, topic: string, i: Option<ActionInterface>)
    requires topic in names.actions
    ensures Belongs(ActionRole(i, names.actions[topic]), Slots(names), Actions(names))
  {
    var a := names.actions[topic];
    assert a in Actions(names);
    assert SendGoal(a) in Owners(names) && CancelGoal(a) in Owners(names) && GetResult(a) in Owners(names);
  }

  lemma RolesKnown(names: Names)
    ensures Known(RoleFor(names), Slots(names), Actions(names))
  {
    forall topic ensures Belongs(RoleFor(names)(topic), Slots(names), Actions(names)) {
      if topic in names.actions {
        ActionRoleBelongs(names, topic, InterfaceOf(topic));
      } else if topic in names.services {
        assert Service(topic) in Owners(names);
      }
    }
  }

  // ----- The report in terms of topics and messages -----

  predicate EventOn(m: Message, topic: string, a: nat, b: nat) {
    m.topic == topic && m.event.Some? && (m.event.value.eventType == a || m.event.value.eventType == b)
  }

  /** The distinct clients and sequence numbers of the events of either type on a topic. */
  function PairsOn(messages: seq<Message>, topic: string, a: nat, b: nat): set<(ClientId, int)> {
    set m | m in messages && EventOn(m, topic, a, b) :: (m.event.value.client, m.event.value.sequence)
  }

  function On(topic: string): Message -> nat { (m: Message) => if m.topic == topic then 1 else 0 }

  function MessagesOn(messages: seq<Message>, topic: string): nat { Sums.Sum(messages, On(topic)) }

  /** The requests and responses of an owner are the events of types 0 and 1, and 2 and 3, on its
      topic; a topic that is not registered has none. */
  ghost predicate CallsReported(calls: map<Slot, nat>, owner: Owner, messages: seq<Message>, topic: string,
                                registered: bool)
  {
    && Slot(owner, false) in calls && Slot(owner, true) in calls
    && calls[Slot(owner, false)] == (if registered then |PairsOn(messages, topic, 0, 1)| else 0)
    && calls[Slot(owner, true)] == (if registered then |PairsOn(messages, topic, 2, 3)| else 0)
  }

  ghost predicate TicksReported(counts: map<string, nat>, action: string, messages: seq<Message>, topic: string,
                                registered: bool)
  {
    action in counts && counts[action] == if registered then MessagesOn(messages, topic) else 0
  }

  ghost predicate ServiceReported(report: Report, messages: seq<Message>, t: string) {
    CallsReported(report.calls, Service(t), messages, t, true)
  }

  ghost predicate ActionReported(report: Report, names: Names, messages: seq<Message>, a: string) {
    && (var t := a + "/_action/send_goal/_service_event";
        CallsReported(report.calls, SendGoal(a), messages, t, t in names.actions))
    && (var t := a + "/_action/cancel_goal/_service_event";
        CallsReported(report.calls, CancelGoal(a), messages, t, t in names.actions))
    && (var t := a + "/_action/get_result/_service_event";
        CallsReported(report.calls, GetResult(a), messages, t, t in names.actions))
    && (var t := a + "/_action/feedback"; TicksReported(report.feedback, a, messages, t, t in names.actions))
    && (var t := a + "/_action/status"; TicksReported(report.status, a, messages, t, t in names.actions))
  }

  lemma DistinctOnTopic(role: string -> Role, messages: seq<Message>, owner: Owner, topic: string, registered: bool)
    requires StandsAlone(role, Calls(owner), topic, registered)
    ensures Distinct(role, messages, Slot(owner, false)) == if registered then PairsOn(messages, topic, 0, 1) else {}
    ensures Distinct(role, messages, Slot(owner, true)) == if registered then PairsOn(messages, topic, 2, 3) else {}
  {
  }

  lemma TicksOnTopic(role: string -> Role, messages: seq<Message>, r: Role, tick: Reading, topic: string,
                     registered: bool)
    requires StandsAlone(role, r, topic, registered)
    requires r == (if tick.Tick? then if tick.feedback then Feedback(tick.action) else Status(tick.action) else Ignored)
    requires tick.Tick?
    ensures Ticks(role, messages, tick) == if registered then MessagesOn(messages, topic) else 0
  {
    if registered {
      Sums.SumSame(messages, IsTick(role, tick), On(topic));
    } else {
      Sums.SumNone(messages, IsTick(role, tick));
    }
  }

  lemma CallsOnTopic(report: Report, role: string -> Role, messages: seq<Message>, owner: Owner, topic: string,
                     registered: bool)
    requires Exact(report, role, messages) && StandsAlone(role, Calls(owner), topic, registered)
    requires Slot(owner, false) in report.calls && Slot(owner, true) in report.calls
    ensures CallsReported(report.calls, owner, messages, topic, registered)
  {
    DistinctOnTopic(role, messages, owner, topic, registered);
  }

  lemma ServiceIsReported(report: Report, names: Names, messages: seq<Message>, t: string)
    requires WellNamed(names) && Exact(report, RoleFor(names), messages) && report.calls.Keys == Slots(names)
    requires t in names.services
    ensures ServiceReported(report, messages, t)
  {
    assert Service(t) in Owners(names);
    RoleOfService(names, t);
    CallsOnTopic(report, RoleFor(names), messages, Service(t), t, true);
  }

  lemma ActionIsReported(report: Report, names: Names, messages: seq<Message>, a: string)
    requires WellNamed(names) && Exact(report, RoleFor(names), messages) && report.calls.Keys == Slots(names)
    requires a in Actions(names) && report.feedback.Keys == report.status.Keys == Actions(names)
    ensures ActionReported(report, names, messages, a)
  {
    var role := RoleFor(names);
    var n :| n in names.actions && names.actions[n] == a;
    assert SendGoal(a) in Owners(names) && CancelGoal(a) in Owners(names) && GetResult(a) in Owners(names);
    assert a != "" by { ActionNamed(n); }
    RoleOfActionTopic(names, a);
    var send, cancel := a + "/_action/send_goal/_service_event", a + "/_action/cancel_goal/_service_event";
    var get := a + "/_action/get_result/_service_event";
    var feedback, status := a + "/_action/feedback", a + "/_action/status";
    CallsOnTopic(report, role, messages, SendGoal(a), send, send in names.actions);
    CallsOnTopic(report, role, messages, CancelGoal(a), cancel, cancel in names.actions);
    CallsOnTopic(report, role, messages, GetResult(a), get, get in names.actions);
    TicksOnTopic(role, messages, Feedback(a), Tick(true, a), feedback, feedback in names.actions);
    TicksOnTopic(role, messages, Status(a), Tick(false, a), status, status in names.actions);
  }

  lemma ActionNamed(n: string)
    requires InterfaceOf(n).Some?
    ensures ActionName(n) != ""
  {
  }

  /** A registered topic that is read as service events. */
  predicate ReadAsEvents(names: Names, topic: string) {
    topic in names.services || (topic in names.actions && EndsWith(topic, "/_service_event"))
  }

  /** The message can be read: on a topic of service events it must hold an event of a known type. */
  predicate CanRead(names: Names, m: Message) {
    ReadAsEvents(names, m.topic) ==> m.event.Some? && m.event.value.eventType in {0, 1, 2, 3}
  }

  lemma EndOfEnd(text: string, p: string, q: string)
    requires EndsWith(text, p) && |q| <= |p|
    ensures EndsWith(text, q) <==> p[|p| - |q|..] == q
  {
    assert text[|text| - |q|..] == text[|text| - |p|..][|p| - |q|..];
  }

  predicate OfEvents(i: ActionInterface) { i.SendGoalEvent? || i.CancelGoalEvent? || i.GetResultEvent? }

  lemma EventPostfix(i: ActionInterface)
    ensures |Postfix(i)| >= 15
    ensures Postfix(i)[|Postfix(i)| - 15..] == "/_service_event" <==> OfEvents(i)
  {
    var p := Postfix(i);
    assert p[|p| - 15..][14] == if i.FeedbackTopic? then 'k' else if i.StatusTopic? then 's' else 't';
  }

  lemma RoleOfEvents(names: Names, topic: string)
    requires WellNamed(names)
    ensures RoleFor(names)(topic).Calls? <==> ReadAsEvents(names, topic)
  {
    if topic in names.actions {
      var i, q := InterfaceOf(topic).value, "/_service_event";
      EventPostfix(i);
      EndOfEnd(topic, Postfix(i), q);
      CallsOfInterface(i, names.actions[topic]);
      assert topic !in names.services;
    }
  }

  lemma CallsOfInterface(i: ActionInterface, a: string)
    ensures ActionRole(Some(i), a).Calls? <==> OfEvents(i)
  {
  }

  lemma WhenRead(names: Names, m: Message)
    requires WellNamed(names)
    ensures Read(RoleFor(names), m).Ok? <==> CanRead(names, m)
    ensures Read(RoleFor(names), m).Err? ==>
      Read(RoleFor(names), m).error ==
        if m.event.None? then CannotDeserialize(m.topic) else InvalidEventType(m.event.value.eventType)
  {
    RoleOfEvents(names, m.topic);
    ReadByRole(RoleFor(names), m);
  }

  lemma ReadByRole(role: string -> Role, m: Message)
    ensures Read(role, m).Ok? <==> (role(m.topic).Calls? ==> m.event.Some? && m.event.value.eventType in {0, 1, 2, 3})
    ensures Read(role, m).Err? ==>
      Read(role, m).error ==
        if m.event.None? then CannotDeserialize(m.topic) else InvalidEventType(m.event.value.eventType)
  {
  }

  /** The report fails with the first message that cannot be read. */
  ghost predicate FailsWith(names: Names, messages: seq<Message>, e: Failure) {
    exists k | 0 <= k < |messages| ::
      && !CanRead(names, messages[k])
      && (forall i | 0 <= i < k :: CanRead(names, messages[i]))
      && e == if messages[k].event.None? then CannotDeserialize(messages[k].topic)
              else InvalidEventType(messages[k].event.value.eventType)
  }

  lemma {:induction false} WhenFails(names: Names, messages: seq<Message>)
    requires WellNamed(names)
    ensures match FirstFailure(RoleFor(names), messages)
            case None => forall k | 0 <= k < |messages| :: CanRead(names, messages[k])
            case Some(e) => FailsWith(names, messages, e)
  {
    if messages != [] {
      WhenRead(names, messages[0]);
      WhenFails(names, messages[1..]);
    }
  }

  /** Per service, and per service of an action, the report holds the number of distinct calls,
      requests and responses apart, and per action the number of feedback and status messages; the
      first unreadable event of a registered topic fails the whole report. */
  method ReadServiceAndActionInfo(topics: seq<TopicType>, fits: (ActionInterface, string) -> bool,
                                  messages: seq<Message>)
    returns (r: Result<Report, Failure>)
    ensures var names := NamesIn(topics, KindOf(fits));
      match FirstFailure(RoleFor(names), messages)
      case Some(e) => r == Err(e)
      case None =>
        && r.Ok? && r.value.calls.Keys == Slots(names)
        && r.value.feedback.Keys == Actions(names) && r.value.status.Keys == Actions(names)
        && Exact(r.value, RoleFor(names), messages)
    ensures var names := NamesIn(topics, KindOf(fits));
      match r
      case Ok(report) =>
        && (forall k | 0 <= k < |messages| :: CanRead(names, messages[k]))
        && (forall t | t in names.services :: ServiceReported(report, messages, t))
        && (forall a | a in Actions(names) :: ActionReported(report, names, messages, a))
      case Err(e) => FailsWith(names, messages, e)
  {
    var names := CollectNames(topics, KindOf(fits));
    RegisteredNames(topics, fits);
    WhenFails(names, messages);
    var role, slots, actions := RoleFor(names), Slots(names), Actions(names);
    RolesKnown(names);
    var none: Seen := map[];
    var start := Tallies(map s | s in slots :: none, map a | a in actions :: 0, map a | a in actions :: 0);
    var tallies := ReadMessages(role, messages, start, slots, actions);
    if tallies.Err? { return Err(tallies.error); }
    var calls := CountCalls(tallies.value.seen);
    var report := Report(calls, tallies.value.feedback, tallies.value.status);
    forall t | t in names.services ensures ServiceReported(report, messages, t) {
      ServiceIsReported(report, names, messages, t);
    }
    forall a | a in Actions(names) ensures ActionReported(report, names, messages, a) {
      ActionIsReported(report, names, messages, a);
    }
    return Ok(report);
  }
}
