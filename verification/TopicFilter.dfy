/**
 * The topic filter of a reader, as the MCAP plugin evaluates it per topic and as the SQLite
 * plugin renders it into SQL conditions, and how far the two select the same topics.
 */
module TopicFilter {
  import opened Basics

  // ----- Names -----

  const SERVICE_EVENT_POSTFIX := "/_service_event"
  const ACTION_POSTFIXES := [
    "/_action/send_goal/_service_event", "/_action/cancel_goal/_service_event",
    "/_action/get_result/_service_event", "/_action/feedback", "/_action/status"]

  /** The text ends in the postfix and does not consist of it alone. */
  predicate EndsWith(text: string, postfix: string) {
    |postfix| < |text| && text[|text| - |postfix|..] == postfix
  }

  predicate OccursAt(text: string, part: string, i: nat) {
    i + |part| <= |text| && text[i..i + |part|] == part
  }

  predicate Contains(text: string, part: string) {
    exists i: nat | i <= |text| :: OccursAt(text, part, i)
  }

  datatype Category = PlainTopic | ServiceEvent | ActionInterface

  predicate RelatedToAction(topic: string) {
    exists i | 0 <= i < |ACTION_POSTFIXES| :: EndsWith(topic, ACTION_POSTFIXES[i])
  }

  function McapCategory(topic: string): Category {
    if RelatedToAction(topic) then ActionInterface
    else if EndsWith(topic, SERVICE_EVENT_POSTFIX) then ServiceEvent
    else PlainTopic
  }

  /** topics.name REGEXP '.*''/_action/.*' */
  predicate MatchesAction(topic: string) { Contains(topic, "/_action/") }

  /** topics.name REGEXP '.*''/_service_event', and not an action name */
  predicate MatchesServiceEvent(topic: string) {
    && (topic == SERVICE_EVENT_POSTFIX || EndsWith(topic, SERVICE_EVENT_POSTFIX))
    && !MatchesAction(topic)
  }

  function SqlCategory(topic: string): Category {
    if MatchesAction(topic) then ActionInterface
    else if MatchesServiceEvent(topic) then ServiceEvent
    else PlainTopic
  }

  predicate Alike(topic: string) { McapCategory(topic) == SqlCategory(topic) }

  /** The text is something followed by the postfix. */
  predicate HasEnd(text: string, postfix: string) {
    |text| > |postfix| && text == text[..|text| - |postfix|] + postfix
  }

  lemma EndsWithIsHasEnd(text: string, postfix: string)
    ensures EndsWith(text, postfix) <==> HasEnd(text, postfix)
  {
    if HasEnd(text, postfix) {
      var k := |text| - |postfix|;
      assert (text[..k] + postfix)[k..] == postfix;
    }
  }

  lemma FrontAndEnd(text: string, postfix: string)
    requires EndsWith(text, postfix)
    ensures text == text[..|text| - |postfix|] + postfix
  {
  }

  /** MCAP's categories by the ends of the names. */
  lemma McapCategories(topic: string)
    ensures McapCategory(topic) == ActionInterface <==>
      || HasEnd(topic, "/_action/send_goal/_service_event") || HasEnd(topic, "/_action/cancel_goal/_service_event")
      || HasEnd(topic, "/_action/get_result/_service_event") || HasEnd(topic, "/_action/feedback")
      || HasEnd(topic, "/_action/status")
    ensures McapCategory(topic) == ServiceEvent <==>
      McapCategory(topic) != ActionInterface && HasEnd(topic, "/_service_event")
  {
    forall p { EndsWithIsHasEnd(topic, p); }
    RelatedIsOneOf(topic);
  }

  lemma RelatedIsOneOf(topic: string)
    ensures RelatedToAction(topic) <==>
      || EndsWith(topic, ACTION_POSTFIXES[0]) || EndsWith(topic, ACTION_POSTFIXES[1])
      || EndsWith(topic, ACTION_POSTFIXES[2]) || EndsWith(topic, ACTION_POSTFIXES[3])
      || EndsWith(topic, ACTION_POSTFIXES[4])
  {
    assert |ACTION_POSTFIXES| == 5;
  }

  predicate MadeOf(topic: string, front: string, marker: string, back: string) { topic == front + marker + back }

  /** SQLite's categories by what the names contain and end in. */
  lemma SqlCategories(topic: string)
    ensures SqlCategory(topic) == ActionInterface <==> exists front, back :: MadeOf(topic, front, "/_action/", back)
    ensures SqlCategory(topic) == ServiceEvent <==>
      SqlCategory(topic) != ActionInterface && (topic == "/_service_event" || HasEnd(topic, "/_service_event"))
  {
    EndsWithIsHasEnd(topic, "/_service_event");
    if i: nat :| i <= |topic| && OccursAt(topic, "/_action/", i) {
      assert MadeOf(topic, topic[..i], "/_action/", topic[i + 9..]);
    }
    if front, back :| MadeOf(topic, front, "/_action/", back) {
      assert topic[|front|..|front| + 9] == "/_action/";
      assert OccursAt(topic, "/_action/", |front|);
    }
  }

  lemma MarkerInFront(p: string)
    requires |p| > 9 && p[0] == p[8] == '/' && p[1] == '_' && p[2] == 'a' && p[3] == 'c' && p[4] == 't'
    requires p[5] == 'i' && p[6] == 'o' && p[7] == 'n'
    ensures p[..9] == "/_action/"
  {
  }

  lemma PostfixMarker(i: nat)
    requires i < |ACTION_POSTFIXES|
    ensures |ACTION_POSTFIXES[i]| > 9 && ACTION_POSTFIXES[i][..9] == "/_action/"
  {
    MarkerInFront(ACTION_POSTFIXES[0]);
    MarkerInFront(ACTION_POSTFIXES[1]);
    MarkerInFront(ACTION_POSTFIXES[2]);
    MarkerInFront(ACTION_POSTFIXES[3]);
    MarkerInFront(ACTION_POSTFIXES[4]);
  }

  /** Whatever MCAP takes for an action name contains the marker SQLite looks for. */
  lemma ActionPostfixContains(topic: string)
    requires RelatedToAction(topic)
    ensures MatchesAction(topic)
  {
    var i :| 0 <= i < |ACTION_POSTFIXES| && EndsWith(topic, ACTION_POSTFIXES[i]);
    var p := ACTION_POSTFIXES[i];
    var k := |topic| - |p|;
    PostfixMarker(i);
    assert topic[k..k + 9] == topic[k..][..9];
    assert OccursAt(topic, "/_action/", k);
  }

  /** The plugins disagree on exactly these names: an action marker without a known action
      postfix, and the bare service event postfix. */
  lemma WhenAlike(topic: string)
    ensures !Alike(topic) <==>
      (MatchesAction(topic) && !RelatedToAction(topic)) || topic == SERVICE_EVENT_POSTFIX
  {
    if RelatedToAction(topic) { ActionPostfixContains(topic); }
    if topic == SERVICE_EVENT_POSTFIX {
      forall i | 0 <= i < |ACTION_POSTFIXES| ensures !EndsWith(topic, ACTION_POSTFIXES[i]) {
        assert |ACTION_POSTFIXES[3]| == 17 && |ACTION_POSTFIXES[4]| == 15;
      }
      assert !MatchesAction(topic) by {
        forall i: nat | i <= |topic| ensures !OccursAt(topic, "/_action/", i) {
          if i + 9 <= |topic| {
            assert topic[i..i + 9][2] == topic[i + 2];
            assert topic[i..i + 9][1] == topic[i + 1];
          }
        }
      }
    }
  }

  // ----- The filter and its meaning in the MCAP plugin -----

  /** A regular expression is the predicate "matches the whole name"; None is the empty text. */
  datatype StorageFilter = StorageFilter(
    topics: seq<string>, services: seq<string>, actions: seq<string>, regex: Option<string -> bool>,
    excludeTopics: seq<string>, excludeServices: seq<string>, excludeActions: seq<string>,
    regexToExclude: Option<string -> bool>)

  predicate Matches(regex: Option<string -> bool>, topic: string) {
    regex.Some? && regex.value(topic)
  }

  predicate SelectedByListOrRegex(topic: string, whiteList: seq<string>, regex: Option<string -> bool>) {
    (whiteList == [] && regex.None?) || topic in whiteList || Matches(regex, topic)
  }

  predicate InListOrRegex(topic: string, blackList: seq<string>, regex: Option<string -> bool>) {
    topic in blackList || Matches(regex, topic)
  }

  function IncludeList(f: StorageFilter, category: Category): seq<string> {
    match category
    case ActionInterface => f.actions
    case ServiceEvent => f.services
    case PlainTopic => f.topics
  }

  function ExcludeList(f: StorageFilter, category: Category): seq<string> {
    match category
    case ActionInterface => f.excludeActions
    case ServiceEvent => f.excludeServices
    case PlainTopic => f.excludeTopics
  }

  predicate McapSelects(f: StorageFilter, topic: string) {
    var category := McapCategory(topic);
    && !InListOrRegex(topic, ExcludeList(f, category), f.regexToExclude)
    && SelectedByListOrRegex(topic, IncludeList(f, category), f.regex)
  }

  // ----- IN lists as text -----

  function Quoted(name: string): string { "'" + name + "'" }

  /** 'a','b','c' */
  function ListText(names: seq<string>): string {
    if names == [] then ""
    else if |names| == 1 then Quoted(names[0])
    else Quoted(names[0]) + "," + ListText(names[1..])
  }

  lemma {:induction false} ListTextSnoc(names: seq<string>, name: string)
    ensures ListText(names + [name]) ==
            if names == [] then Quoted(name) else ListText(names) + "," + Quoted(name)
  {
    if names != [] {
      ListTextSnoc(names[1..], name);
      assert (names + [name])[1..] == names[1..] + [name];
      if |names| == 1 {
        assert names[1..] == [];
        assert ListText(names + [name]) == Quoted(names[0]) + "," + Quoted(name);
      } else {
        var head, rest := Quoted(names[0]) + ",", ListText(names[1..]);
        assert ListText(names) == head + rest;
        assert ListText(names + [name]) == head + (rest + "," + Quoted(name));
        assert head + (rest + "," + Quoted(name)) == (head + rest) + "," + Quoted(name);
      }
    }
  }

  /** The loop the filter builders use three times: a comma after every name but the last. */
  method AppendNames(text: string, names: seq<string>) returns (r: string)
    ensures r == text + ListText(names)
  {
    r := text;
    ghost var done := "";
    for i := 0 to |names|
      invariant r == text + done
      invariant done == ListText(names[..i]) + (if 0 < i < |names| then "," else "")
    {
      NextName(names, i, done);
      done := done + Quoted(names[i]);
      r := r + "'" + names[i] + "'";
      if i != |names| - 1 {
        done := done + ",";
        r := r + ",";
      }
    }
    assert names[..|names|] == names;
  }

  lemma NextName(names: seq<string>, i: nat, done: string)
    requires i < |names| && done == ListText(names[..i]) + (if 0 < i then "," else "")
    ensures done + Quoted(names[i]) == ListText(names[..i + 1])
  {
    ListTextSnoc(names[..i], names[i]);
    assert names[..i] + [names[i]] == names[..i + 1];
  }

  /** A separator is written before a group only when some text precedes it. */
  function Join(text: string, names: seq<string>): string {
    if names == [] then text
    else if text == "" then ListText(names)
    else text + "," + ListText(names)
  }

  function IncludedText(f: StorageFilter): string {
    Join(Join(ListText(f.topics), f.services), f.actions)
  }

  method RenderIncluded(f: StorageFilter) returns (text: string)
    ensures text == IncludedText(f)
  {
    text := AppendNames("", f.topics);
    if f.services != [] {
      if text != "" { text := text + ","; }
      text := AppendNames(text, f.services);
    }
    if f.actions != [] {
      if text != "" { text := text + ","; }
      text := AppendNames(text, f.actions);
    }
  }

  /** The excluded list writes the separator before services and actions unconditionally. */
  function ExcludedText(f: StorageFilter): string {
    ListText(f.excludeTopics)
    + (if f.excludeServices == [] then "" else "," + ListText(f.excludeServices))
    + (if f.excludeActions == [] then "" else "," + ListText(f.excludeActions))
  }

  method RenderExcluded(f: StorageFilter) returns (text: string)
    ensures text == ExcludedText(f)
  {
    text := AppendNames("", f.excludeTopics);
    if f.excludeServices != [] {
      text := text + ",";
      text := AppendNames(text, f.excludeServices);
    }
    if f.excludeActions != [] {
      text := text + ",";
      text := AppendNames(text, f.excludeActions);
    }
  }

  /** Reading a quoted name up to its closing quote: the name and what follows. */
  function ParseName(text: string): (r: Option<(string, string)>)
    ensures r.Some? ==> |r.value.1| < |text|
  {
    if text == "" then None
    else if text[0] == '\'' then Some(("", text[1..]))
    else match ParseName(text[1..])
      case None => None
      case Some((name, rest)) => Some(([text[0]] + name, rest))
  }

  /** The SQL reading of a list of literals; None is a syntax error. */
  function ParseList(text: string): Option<seq<string>>
    decreases |text|
  {
    if text == "" || text[0] != '\'' then None
    else match ParseName(text[1..])
      case None => None
      case Some((name, rest)) =>
        if rest == "" then Some([name])
        else if rest[0] != ',' then None
        else match ParseList(rest[1..])
          case None => None
          case Some(names) => Some([name] + names)
  }

  predicate QuoteFree(names: seq<string>) {
    forall i | 0 <= i < |names| :: '\'' !in names[i]
  }

  lemma {:induction false} ParseNameQuoted(name: string, rest: string)
    requires '\'' !in name
    ensures ParseName(name + "'" + rest) == Some((name, rest))
  {
    var text := name + "'" + rest;
    if name == "" {
      assert text[1..] == rest;
    } else {
      assert text[1..] == name[1..] + "'" + rest;
      ParseNameQuoted(name[1..], rest);
      assert [name[0]] + name[1..] == name;
    }
  }

  lemma {:induction false} ParseListText(names: seq<string>)
    requires QuoteFree(names) && names != []
    ensures ParseList(ListText(names)) == Some(names)
  {
    var text := ListText(names);
    if |names| == 1 {
      assert text[1..] == names[0] + "'" + "";
      ParseNameQuoted(names[0], "");
      assert names == [names[0]];
    } else {
      var tail := "," + ListText(names[1..]);
      assert text[1..] == names[0] + "'" + tail;
      ParseNameQuoted(names[0], tail);
      assert tail[1..] == ListText(names[1..]);
      ParseListText(names[1..]);
      assert names == [names[0]] + names[1..];
    }
  }

  lemma {:induction false} JoinIsConcat(a: seq<string>, b: seq<string>)
    ensures Join(ListText(a), b) == ListText(a + b)
  {
    if a == [] {
      assert a + b == b;
    } else if b == [] {
      assert a + b == a;
    } else if |a| == 1 {
      assert (a + b)[1..] == b;
    } else {
      JoinIsConcat(a[1..], b);
      assert (a + b)[1..] == a[1..] + b;
      assert ListText(a + b) == Quoted(a[0]) + "," + ListText(a[1..] + b);
      assert ListText(a[1..]) != "";
      assert ListText(a + b) == Quoted(a[0]) + "," + (ListText(a[1..]) + "," + ListText(b));
    }
  }

  lemma IncludedTextIsList(f: StorageFilter)
    ensures IncludedText(f) == ListText(f.topics + f.services + f.actions)
  {
    JoinIsConcat(f.topics, f.services);
    JoinIsConcat(f.topics + f.services, f.actions);
  }

  /** Reading the rendered included list gives back topics, services, actions, with duplicates. */
  lemma IncludedRoundTrip(f: StorageFilter)
    requires QuoteFree(f.topics + f.services + f.actions) && f.topics + f.services + f.actions != []
    ensures ParseList(IncludedText(f)) == Some(f.topics + f.services + f.actions)
  {
    IncludedTextIsList(f);
    ParseListText(f.topics + f.services + f.actions);
  }

  predicate ExcludesRenderable(f: StorageFilter) {
    f.excludeTopics != [] || (f.excludeServices == [] && f.excludeActions == [])
  }

  function Excluded(f: StorageFilter): seq<string> {
    f.excludeTopics + f.excludeServices + f.excludeActions
  }

  /** The rendered excluded list is a list, and then the right one, exactly when excluded topics
      come first; otherwise it starts with a comma and SQL rejects it. */
  lemma ExcludedRoundTrip(f: StorageFilter)
    requires QuoteFree(Excluded(f)) && ExcludedText(f) != ""
    ensures ParseList(ExcludedText(f)) == if ExcludesRenderable(f) then Some(Excluded(f)) else None
    ensures ParseList(ExcludedText(f)) == Some(Excluded(f)) <==> ExcludesRenderable(f)
  {
    if f.excludeTopics != [] {
      JoinIsConcat(f.excludeTopics, f.excludeServices);
      JoinIsConcat(f.excludeTopics + f.excludeServices, f.excludeActions);
      assert ListText(f.excludeTopics) != "";
      assert ExcludedText(f) == ListText(Excluded(f));
      ParseListText(Excluded(f));
    } else {
      assert ExcludedText(f)[0] == ',';
    }
  }

  lemma ExcludedTextEmpty(f: StorageFilter)
    ensures ExcludedText(f) == "" <==> Excluded(f) == []
  {
    if f.excludeTopics != [] { assert ListText(f.excludeTopics) != ""; }
  }

  // ----- SQL conditions -----

  datatype Condition =
    | NameIn(list: string)
    | NameNotIn(list: string)
    | NameMatches(regex: string -> bool)
    | NameNotMatches(regex: string -> bool)
    | AnyServiceEvent
    | AnyAction
    | Not(c: Condition)
    | And(a: Condition, b: Condition)
    | Or(a: Condition, b: Condition)

  predicate WellFormed(c: Condition) {
    match c
    case NameIn(list) => ParseList(list).Some?
    case NameNotIn(list) => ParseList(list).Some?
    case Not(d) => WellFormed(d)
    case And(a, b) => WellFormed(a) && WellFormed(b)
    case Or(a, b) => WellFormed(a) && WellFormed(b)
    case _ => true
  }

  predicate Holds(c: Condition, topic: string)
    requires WellFormed(c)
  {
    match c
    case NameIn(list) => topic in ParseList(list).value
    case NameNotIn(list) => topic !in ParseList(list).value
    case NameMatches(p) => p(topic)
    case NameNotMatches(p) => !p(topic)
    case AnyServiceEvent => MatchesServiceEvent(topic)
    case AnyAction => MatchesAction(topic)
    case Not(d) => !Holds(d, topic)
    case And(a, b) => Holds(a, topic) && Holds(b, topic)
    case Or(a, b) => Holds(a, topic) || Holds(b, topic)
  }

  /** The condition prepare_included_topics_filter pushes, if any. */
  function IncludeConditions(f: StorageFilter): seq<Condition> {
    var text := IncludedText(f);
    if text != "" && f.regex.Some? then [Or(NameIn(text), NameMatches(f.regex.value))]
    else if text != "" then
      if f.services != [] then
        if f.topics != [] && f.actions != [] then [NameIn(text)]
        else if f.actions != [] then [Or(NameIn(text), And(Not(AnyServiceEvent), Not(AnyAction)))]
        else [Or(NameIn(text), Not(AnyServiceEvent))]
      else if f.actions != [] then
        if f.topics != [] then [Or(NameIn(text), AnyServiceEvent)]
        else [Or(NameIn(text), Not(AnyAction))]
      else [Or(Or(NameIn(text), AnyServiceEvent), AnyAction)]
    else if f.regex.Some? then [NameMatches(f.regex.value)]
    else []
  }

  function ExcludeConditions(f: StorageFilter): seq<Condition> {
    (if ExcludedText(f) != "" then [NameNotIn(ExcludedText(f))] else [])
    + (if f.regexToExclude.Some? then [NameNotMatches(f.regexToExclude.value)] else [])
  }

  function Conditions(f: StorageFilter): seq<Condition> { IncludeConditions(f) + ExcludeConditions(f) }

  predicate AllWellFormed(cs: seq<Condition>) {
    forall i | 0 <= i < |cs| :: WellFormed(cs[i])
  }

  predicate AllHold(cs: seq<Condition>, topic: string)
    requires AllWellFormed(cs)
  {
    forall i | 0 <= i < |cs| :: Holds(cs[i], topic)
  }

  /** Preparing the statement succeeds. */
  predicate SqlPrepares(f: StorageFilter) { AllWellFormed(Conditions(f)) }

  predicate SqlSelects(f: StorageFilter, topic: string)
    requires SqlPrepares(f)
  {
    AllHold(Conditions(f), topic)
  }

  // ----- Agreement -----

  predicate AllNamesQuoteFree(f: StorageFilter) {
    QuoteFree(f.topics + f.services + f.actions) && QuoteFree(Excluded(f))
  }

  /** Every listed name is in the list of its own category. */
  predicate Categorised(f: StorageFilter) {
    && (forall t | t in f.topics + f.excludeTopics :: SqlCategory(t) == PlainTopic)
    && (forall t | t in f.services + f.excludeServices :: SqlCategory(t) == ServiceEvent)
    && (forall t | t in f.actions + f.excludeActions :: SqlCategory(t) == ActionInterface)
  }

  /** No regex and no actions, but both topics and services listed. */
  predicate Exceptional(f: StorageFilter) {
    f.regex.None? && f.actions == [] && f.topics != [] && f.services != []
  }

  lemma IncludedTextEmpty(f: StorageFilter)
    ensures IncludedText(f) == "" <==> f.topics + f.services + f.actions == []
  {
    IncludedTextIsList(f);
  }

  /** "not a service event and not an action" is how SQL says plain topic. */
  lemma PlainCondition(topic: string)
    ensures var plain := And(Not(AnyServiceEvent), Not(AnyAction));
      WellFormed(plain) && (Holds(plain, topic) <==> SqlCategory(topic) == PlainTopic)
  {
    var noService, noAction := Not(AnyServiceEvent), Not(AnyAction);
    assert WellFormed(noService) && WellFormed(noAction);
    assert Holds(noService, topic) <==> !MatchesServiceEvent(topic);
    assert Holds(noAction, topic) <==> !MatchesAction(topic);
  }

  /** Whatever is combined with a well-formed condition. */
  lemma CombinedPrepare(list: Condition)
    requires WellFormed(list)
    ensures
      && WellFormed(Or(list, AnyServiceEvent)) && WellFormed(Or(Or(list, AnyServiceEvent), AnyAction))
      && WellFormed(Or(list, Not(AnyServiceEvent))) && WellFormed(Or(list, Not(AnyAction)))
      && WellFormed(Or(list, And(Not(AnyServiceEvent), Not(AnyAction))))
      && forall regex :: WellFormed(Or(list, NameMatches(regex)))
  {
    var noService, noAction := Not(AnyServiceEvent), Not(AnyAction);
    assert WellFormed(noService) && WellFormed(noAction) && WellFormed(And(noService, noAction));
    assert WellFormed(Or(list, AnyServiceEvent));
  }

  lemma IncludesPrepare(f: StorageFilter)
    requires QuoteFree(f.topics + f.services + f.actions)
    ensures AllWellFormed(IncludeConditions(f))
    ensures IncludedText(f) != "" ==> ParseList(IncludedText(f)) == Some(f.topics + f.services + f.actions)
    ensures IncludedText(f) == "" <==> f.topics == [] && f.services == [] && f.actions == []
  {
    IncludedTextEmpty(f);
    if IncludedText(f) != "" {
      IncludedRoundTrip(f);
      CombinedPrepare(NameIn(IncludedText(f)));
    }
  }

  lemma WellFormedConcat(a: seq<Condition>, b: seq<Condition>)
    ensures AllWellFormed(a + b) <==> AllWellFormed(a) && AllWellFormed(b)
  {
    if AllWellFormed(a + b) {
      assert forall i | 0 <= i < |a| :: a[i] == (a + b)[i];
      assert forall i | 0 <= i < |b| :: b[i] == (a + b)[|a| + i];
    }
  }

  lemma WhenExcludesPrepare(f: StorageFilter)
    requires QuoteFree(Excluded(f))
    ensures AllWellFormed(ExcludeConditions(f)) <==> ExcludesRenderable(f)
  {
    ExcludedTextEmpty(f);
    if ExcludedText(f) != "" {
      ExcludedRoundTrip(f);
      assert ExcludeConditions(f)[0] == NameNotIn(ExcludedText(f));
    }
  }

  /** SQL accepts the rendered filter exactly when the excluded list is renderable. */
  lemma WhenSqlPrepares(f: StorageFilter)
    requires AllNamesQuoteFree(f)
    ensures SqlPrepares(f) <==> ExcludesRenderable(f)
  {
    IncludesPrepare(f);
    WhenExcludesPrepare(f);
    WellFormedConcat(IncludeConditions(f), ExcludeConditions(f));
  }

  lemma IncludeMeaning(f: StorageFilter, topic: string)
    requires QuoteFree(f.topics + f.services + f.actions) && Categorised(f) && Alike(topic)
    requires AllWellFormed(IncludeConditions(f))
    ensures AllHold(IncludeConditions(f), topic) <==>
      || SelectedByListOrRegex(topic, IncludeList(f, McapCategory(topic)), f.regex)
      || (Exceptional(f) && SqlCategory(topic) == PlainTopic)
  {
    IncludesPrepare(f);
    var cs := IncludeConditions(f);
    if cs != [] {
      assert AllHold(cs, topic) <==> Holds(cs[0], topic);
      if IncludedText(f) != "" { ListedMeaning(f, topic); }
    }
  }

  /** The condition pushed for a non-empty list, case by case. */
  lemma ListedMeaning(f: StorageFilter, topic: string)
    requires Categorised(f) && IncludedText(f) != ""
    requires ParseList(IncludedText(f)) == Some(f.topics + f.services + f.actions)
    requires WellFormed(IncludeConditions(f)[0])
    ensures Holds(IncludeConditions(f)[0], topic) <==>
      || SelectedByListOrRegex(topic, IncludeList(f, SqlCategory(topic)), f.regex)
      || (Exceptional(f) && SqlCategory(topic) == PlainTopic)
  {
    var list, c := NameIn(IncludedText(f)), IncludeConditions(f)[0];
    var listed := topic in IncludeList(f, SqlCategory(topic));
    InOwnList(f.topics, f.services, f.actions, topic);
    assert WellFormed(list) && (Holds(list, topic) <==> listed);
    if f.regex.Some? {
      assert c == Or(list, NameMatches(f.regex.value));
    } else if f.services != [] && f.actions != [] && f.topics == [] {
      PlainCondition(topic);
    } else if f.services != [] && f.actions == [] {
      assert WellFormed(Not(AnyServiceEvent)) && (Holds(Not(AnyServiceEvent), topic) <==> !MatchesServiceEvent(topic));
      assert c == Or(list, Not(AnyServiceEvent));
    } else if f.services == [] && f.actions != [] && f.topics == [] {
      assert WellFormed(Not(AnyAction)) && (Holds(Not(AnyAction), topic) <==> !MatchesAction(topic));
      assert c == Or(list, Not(AnyAction));
    } else if f.services == [] && f.actions == [] {
      var either := Or(list, AnyServiceEvent);
      assert WellFormed(either) && (Holds(either, topic) <==> listed || MatchesServiceEvent(topic));
      assert c == Or(either, AnyAction);
    }
  }

  /** A name is in the joint list when it is in the list of its category. */
  lemma InOwnList(topics: seq<string>, services: seq<string>, actions: seq<string>, topic: string)
    requires forall t | t in topics :: SqlCategory(t) == PlainTopic
    requires forall t | t in services :: SqlCategory(t) == ServiceEvent
    requires forall t | t in actions :: SqlCategory(t) == ActionInterface
    ensures topic in topics + services + actions <==>
      match SqlCategory(topic)
      case PlainTopic => topic in topics
      case ServiceEvent => topic in services
      case ActionInterface => topic in actions
  {
  }

  lemma ExcludeMeaning(f: StorageFilter, topic: string)
    requires QuoteFree(Excluded(f)) && Categorised(f) && Alike(topic)
    requires AllWellFormed(ExcludeConditions(f))
    ensures AllHold(ExcludeConditions(f), topic) <==>
      !InListOrRegex(topic, ExcludeList(f, McapCategory(topic)), f.regexToExclude)
  {
    var cs := ExcludeConditions(f);
    ExcludedTextEmpty(f);
    InOwnList(f.excludeTopics, f.excludeServices, f.excludeActions, topic);
    if ExcludedText(f) != "" {
      ExcludedRoundTrip(f);
      assert cs[0] == NameNotIn(ExcludedText(f));
      assert f.regexToExclude.Some? ==> cs[1] == NameNotMatches(f.regexToExclude.value);
    } else {
      assert f.regexToExclude.Some? ==> cs[0] == NameNotMatches(f.regexToExclude.value);
    }
  }

  /** The topic is a plain one outside the list of topics, and nothing excludes it. */
  predicate UnlistedPlain(f: StorageFilter, topic: string) {
    && SqlCategory(topic) == PlainTopic && topic !in f.topics
    && !InListOrRegex(topic, f.excludeTopics, f.regexToExclude)
  }

  /** For categorised lists and a name both plugins classify alike: SQLite selects every topic
      that MCAP selects, and selects more exactly in the exceptional case, namely the plain topics
      that are not listed. */
  lemma SelectionsCompared(f: StorageFilter, topic: string)
    requires AllNamesQuoteFree(f) && Categorised(f) && Alike(topic) && SqlPrepares(f)
    ensures McapSelects(f, topic) ==> SqlSelects(f, topic)
    ensures SqlSelects(f, topic) && !McapSelects(f, topic) <==> Exceptional(f) && UnlistedPlain(f, topic)
  {
    var a, b := IncludeConditions(f), ExcludeConditions(f);
    AllConcat(a, b, topic);
    IncludeMeaning(f, topic);
    ExcludeMeaning(f, topic);
  }

  function Longest(names: seq<string>): (n: nat)
    ensures forall t | t in names :: |t| <= n
  {
    if names == [] then 0 else Max(|names[0]|, Longest(names[1..]))
  }

  /** A plain name outside the given ones. */
  lemma FreshName(names: seq<string>) returns (t: string)
    ensures t !in names && Alike(t) && SqlCategory(t) == PlainTopic
  {
    t := Xs(Longest(names) + 1);
    XsArePlain(t);
  }

  function Xs(n: nat): (t: string)
    ensures |t| == n && forall i | 0 <= i < n :: t[i] == 'x'
  {
    seq(n, _ => 'x')
  }

  /** Without an exclusion regex, the plugins agree on all names they classify alike exactly when
      the filter is not exceptional. */
  lemma AgreementExact(f: StorageFilter)
    requires AllNamesQuoteFree(f) && Categorised(f) && SqlPrepares(f) && f.regexToExclude.None?
    ensures (forall t | Alike(t) :: SqlSelects(f, t) <==> McapSelects(f, t)) <==> !Exceptional(f)
  {
    if Exceptional(f) {
      var t := DifferingTopic(f);
    } else {
      forall u | Alike(u) ensures SqlSelects(f, u) <==> McapSelects(f, u) {
        SelectionsCompared(f, u);
      }
    }
  }

  lemma DifferingTopic(f: StorageFilter) returns (t: string)
    requires AllNamesQuoteFree(f) && Categorised(f) && SqlPrepares(f) && f.regexToExclude.None?
    requires Exceptional(f)
    ensures Alike(t) && SqlSelects(f, t) && !McapSelects(f, t)
  {
    t := FreshName(f.topics + f.excludeTopics);
    SelectionsCompared(f, t);
    assert t !in f.topics && t !in f.excludeTopics;
  }

  lemma XsArePlain(t: string)
    requires forall i | 0 <= i < |t| :: t[i] == 'x'
    ensures Alike(t) && SqlCategory(t) == PlainTopic
  {
    forall i: nat | i <= |t| ensures !OccursAt(t, "/_action/", i) {
      if i + 9 <= |t| { assert t[i..i + 9][0] == t[i]; }
    }
    assert !RelatedToAction(t) by {
      if RelatedToAction(t) { ActionPostfixContains(t); }
    }
    assert !EndsWith(t, SERVICE_EVENT_POSTFIX) && t != SERVICE_EVENT_POSTFIX by {
      assert SERVICE_EVENT_POSTFIX[0] == '/';
      if |SERVICE_EVENT_POSTFIX| < |t| {
        assert t[|t| - |SERVICE_EVENT_POSTFIX|..][0] == t[|t| - |SERVICE_EVENT_POSTFIX|] == 'x';
      }
    }
  }

  lemma AllConcat(a: seq<Condition>, b: seq<Condition>, topic: string)
    requires AllWellFormed(a + b)
    ensures AllWellFormed(a) && AllWellFormed(b)
    ensures AllHold(a + b, topic) <==> AllHold(a, topic) && AllHold(b, topic)
  {
    forall i | 0 <= i < |a| ensures WellFormed(a[i]) && a[i] == (a + b)[i] { assert a[i] == (a + b)[i]; }
    forall i | 0 <= i < |b| ensures WellFormed(b[i]) && b[i] == (a + b)[|a| + i] { assert b[i] == (a + b)[|a| + i]; }
  }
}
