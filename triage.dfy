/**
 * The records of the operator-triage core and the rules that derive them:
 * events, the orchestrator's three-question classification, the risk table
 * that styles alerts, the parser for todo lines in a model's reply, and the
 * event summary lines sent in prompts.
 */
module Triage {
  import opened Wrappers
  import opened Text

  /** The event types the entry form offers. */
  datatype EventType = AutonomousAssetPing | ScheduledCycle | RegulatoryUpdate | ContractorEvent | IncidentFlag
  {
    /** The label of the type, a single line. */
    function Name(): (name: string)
      ensures '\n' !in name
    {
      match this
      case AutonomousAssetPing => "Autonomous Asset Ping"
      case ScheduledCycle => "Scheduled Cycle"
      case RegulatoryUpdate => "Regulatory Update"
      case ContractorEvent => "Contractor Event"
      case IncidentFlag => "Incident Flag"
    }
  }

  /**
   * A facility event. Only `status` changes after creation, and it changes in
   * place: every decision and alert holding the event sees the new status.
   */
  class Event {
    const id: int
    const kind: EventType
    const details: string
    const time: int
    var status: string

    constructor (id: int, kind: EventType, details: string, time: int)
      ensures this.id == id && this.kind == kind && this.details == details && this.time == time
      ensures status == "Pending"
    {
      this.id := id;
      this.kind := kind;
      this.details := details;
      this.time := time;
      status := "Pending";
    }
  }

  /** The operator's answers: safety impact, compliance deviation, asset health risk. */
  datatype Answers = Answers(safety: bool, compliance: bool, assetRisk: bool)

  /** What the orchestrator decides for a set of answers. */
  datatype Classification = Classification(outcome: string, color: string, alertType: string)

  /** The display colour that goes with each outcome. */
  function OutcomeColor(outcome: string): string
  {
    if outcome == "Escalate" then "#ff4d4f"
    else if outcome == "Schedule Task" then "#faad14"
    else if outcome == "Auto-Resolve" then "#52c41a"
    else ""
  }

  /**
   * The orchestrator's rule, first match wins: a safety impact escalates;
   * otherwise a compliance deviation or an asset risk schedules a task, typed
   * by the asset risk when there is one; otherwise the event auto-resolves.
   */
  function Classify(a: Answers): (c: Classification)
    ensures c.outcome == "Escalate" <==> a.safety
    ensures c.outcome == "Schedule Task" <==> !a.safety && (a.compliance || a.assetRisk)
    ensures c.outcome == "Auto-Resolve" <==> !a.safety && !a.compliance && !a.assetRisk
    ensures c.color == OutcomeColor(c.outcome) && c.color != ""
    ensures c.alertType == "Critical Safety" <==> a.safety
    ensures c.alertType == "Asset Failure Risk" <==> !a.safety && a.assetRisk
    ensures c.alertType == "Compliance Drift" <==> !a.safety && a.compliance && !a.assetRisk
    ensures c.alertType == "Rounding" <==> c.outcome == "Auto-Resolve"
  {
    if a.safety then
      Classification("Escalate", "#ff4d4f", "Critical Safety")
    else if a.compliance || a.assetRisk then
      Classification("Schedule Task", "#faad14", if a.assetRisk then "Asset Failure Risk" else "Compliance Drift")
    else
      Classification("Auto-Resolve", "#52c41a", "Rounding")
  }

  /** A safety impact decides the outcome whatever the other two answers are. */
  lemma SafetyDominates(compliance: bool, assetRisk: bool, compliance': bool, assetRisk': bool)
    ensures Classify(Answers(true, compliance, assetRisk)) == Classify(Answers(true, compliance', assetRisk'))
  {
  }

  /** Style class and urgency (seconds to respond) of an alert. */
  datatype AlertStyle = AlertStyle(styleClass: string, urgency: nat)

  /** The risk-label table that styles alerts. */
  const RiskToAlert: map<string, AlertStyle> := map[
    "High" := AlertStyle("alert-critical", 60),
    "Medium" := AlertStyle("alert-asset", 900),
    "Low" := AlertStyle("alert-rounding", 14400),
    "Training" := AlertStyle("alert-training", 86400),
    "Compliance" := AlertStyle("alert-compliance", 3600)
  ]

  /** The style of a risk label: its row of the table, or the "Low" row for any other label. */
  function StyleFor(riskLevel: string): (st: AlertStyle)
    ensures riskLevel in RiskToAlert ==> st == RiskToAlert[riskLevel]
    ensures riskLevel !in RiskToAlert ==> st == AlertStyle("alert-rounding", 14400)
    ensures st in RiskToAlert.Values
  {
    if riskLevel in RiskToAlert then RiskToAlert[riskLevel] else RiskToAlert["Low"]
  }

  datatype Alert = Alert(
    id: int, kind: string, styleClass: string, auto: string,
    event: Event, created: int, urgency: nat, dismissed: bool)

  /** The alert `add_alert_dynamic` builds; a missing or empty action gives an empty `auto`. */
  function NewAlert(event: Event, riskLevel: string, autoAction: Option<string>, id: int, created: int): (a: Alert)
    ensures a.kind == riskLevel && a.event == event && a.id == id && a.created == created && !a.dismissed
    ensures AlertStyle(a.styleClass, a.urgency) == StyleFor(riskLevel) && Styled(a)
    ensures a.auto == (if autoAction.Some? then autoAction.value else "")
  {
    var st := StyleFor(riskLevel);
    Alert(id, riskLevel, st.styleClass, if autoAction.Some? then autoAction.value else "",
          event, created, st.urgency, false)
  }

  /** The alert carries a row of the risk table. */
  ghost predicate Styled(a: Alert)
  {
    AlertStyle(a.styleClass, a.urgency) in RiskToAlert.Values
  }

  /**
   * None of the orchestrator's alert types is a label of the risk table, so
   * every alert it raises has the "Low" style: class alert-rounding, four hours.
   */
  lemma OrchestratorAlertsFallBack(a: Answers)
    ensures Classify(a).alertType !in RiskToAlert
    ensures StyleFor(Classify(a).alertType) == AlertStyle("alert-rounding", 14400)
  {
  }

  /** A decision of the orchestrator, newest first in the decision log. */
  datatype Decision = Decision(event: Event, answers: Answers, outcome: string, color: string, timestamp: int)

  /** The decision records the classification of its own answers. */
  ghost predicate Recorded(d: Decision)
  {
    d.outcome == Classify(d.answers).outcome && d.color == Classify(d.answers).color
  }

  /** `alerts` with the alert at `i` marked dismissed and nothing else changed. */
  function DismissAt(alerts: seq<Alert>, i: nat): (r: seq<Alert>)
    requires i < |alerts|
    ensures |r| == |alerts| && r[i].dismissed
    ensures r[i] == alerts[i].(dismissed := true)
    ensures forall k :: 0 <= k < |alerts| && k != i ==> r[k] == alerts[k]
  {
    alerts[i := alerts[i].(dismissed := true)]
  }

  lemma DismissIdempotent(alerts: seq<Alert>, i: nat)
    requires i < |alerts|
    ensures DismissAt(DismissAt(alerts, i), i) == DismissAt(alerts, i)
  {
  }

  /** The alerts the Alert Matrix shows: the ones not dismissed, in stored order. */
  function ActiveAlerts(alerts: seq<Alert>): (view: seq<Alert>)
    ensures |view| <= |alerts|
    ensures forall k :: 0 <= k < |view| ==> !view[k].dismissed
    decreases |alerts|
  {
    if |alerts| == 0 then []
    else
      var last := alerts[|alerts| - 1];
      ActiveAlerts(alerts[..|alerts| - 1]) + (if last.dismissed then [] else [last])
  }

  /** The view holds exactly the stored alerts that are not dismissed. */
  lemma {:induction false} ActiveAlertsMembers(alerts: seq<Alert>)
    ensures forall a :: a in ActiveAlerts(alerts) <==> a in alerts && !a.dismissed
    decreases |alerts|
  {
    if |alerts| > 0 {
      var init := alerts[..|alerts| - 1];
      ActiveAlertsMembers(init);
      assert alerts == init + [alerts[|alerts| - 1]];
    }
  }

  /** The view of a non-empty list counts the view of all but the last alert, plus the last one if active. */
  lemma ActiveAlertsLast(alerts: seq<Alert>)
    requires |alerts| > 0
    ensures |ActiveAlerts(alerts)| == |ActiveAlerts(alerts[..|alerts| - 1])| + (if alerts[|alerts| - 1].dismissed then 0 else 1)
  {
  }

  /** Dismissing an active alert takes exactly one alert out of the view; dismissing it again takes none. */
  lemma {:induction false} DismissShrinksView(alerts: seq<Alert>, i: nat)
    requires i < |alerts|
    ensures |ActiveAlerts(DismissAt(alerts, i))| == |ActiveAlerts(alerts)| - (if alerts[i].dismissed then 0 else 1)
    decreases |alerts|
  {
    var n := |alerts| - 1;
    var r := DismissAt(alerts, i);
    ActiveAlertsLast(r);
    ActiveAlertsLast(alerts);
    if i < n {
      assert r[..n] == DismissAt(alerts[..n], i);
      assert r[n] == alerts[n];
      DismissShrinksView(alerts[..n], i);
    } else {
      assert r[..n] == alerts[..n];
      assert r[n].dismissed;
    }
  }

  /** A parsed todo: the event text, risk and action of one reply line. */
  datatype Todo = Todo(event: string, risk: string, action: string, done: bool)

  /** A reply line is a todo line when it holds both field markers. */
  predicate IsTodoLine(line: string)
    ensures IsTodoLine(line) <==> (exists i :: OccursAt(line, "| Risk:", i)) && (exists j :: OccursAt(line, "| Action:", j))
  {
    ContainsIff(line, "| Risk:");
    ContainsIff(line, "| Action:");
    Contains(line, "| Risk:") && Contains(line, "| Action:")
  }

  /**
   * The two markers begin at two different `|` characters (their third
   * characters differ), so a todo line has at least three segments.
   */
  lemma TodoLineHasThreeSegments(line: string)
    requires IsTodoLine(line)
    ensures |Split(line, '|')| >= 3
  {
    var i :| OccursAt(line, "| Risk:", i);
    var j :| OccursAt(line, "| Action:", j);
    assert line[i] == line[i..i + 7][0] == '|';
    assert line[j] == line[j..j + 9][0] == '|';
    assert line[i + 2] == line[i..i + 7][2] == 'R';
    assert line[j + 2] == line[j..j + 9][2] == 'A';
    if i < j {
      CountAtLeastTwo(line, '|', i, j);
    } else {
      CountAtLeastTwo(line, '|', j, i);
    }
  }

  /** One field of a todo line: every occurrence of its label removed, then the whitespace around it. */
  function Field(segment: string, tag: string): (v: string)
    requires |tag| > 0
    ensures v == [] || (v[0] !in Whitespace && v[|v| - 1] !in Whitespace)
  {
    Strip(RemoveAll(segment, tag))
  }

  /**
   * The todo of one reply line, or None for a line without both markers.
   * Segments after the third (a `|` inside the action) are dropped.
   */
  function ParseTodoLine(line: string): (t: Option<Todo>)
    ensures t.Some? <==> IsTodoLine(line)
    ensures t.Some? ==> !t.value.done
  {
    if IsTodoLine(line) then
      TodoLineHasThreeSegments(line);
      var parts := Split(line, '|');
      Some(Todo(Field(parts[0], "Event:"), Field(parts[1], "Risk:"), Field(parts[2], "Action:"), false))
    else
      None
  }

  /** The todos of a reply: one per todo line, in order. */
  function ParseTodos(lines: seq<string>): (todos: seq<Todo>)
    ensures |todos| <= |lines|
    ensures forall k :: 0 <= k < |todos| ==> !todos[k].done
    decreases |lines|
  {
    if |lines| == 0 then []
    else
      var last := ParseTodoLine(lines[|lines| - 1]);
      ParseTodos(lines[..|lines| - 1]) + (if last.Some? then [last.value] else [])
  }

  /** Every parsed todo comes from a line of the reply. */
  lemma {:induction false} ParseTodosSound(lines: seq<string>, t: Todo)
    requires t in ParseTodos(lines)
    ensures exists l :: l in lines && ParseTodoLine(l) == Some(t)
    decreases |lines|
  {
    var init := lines[..|lines| - 1];
    var last := lines[|lines| - 1];
    if t in ParseTodos(init) {
      ParseTodosSound(init, t);
      var l :| l in init && ParseTodoLine(l) == Some(t);
      assert l in lines;
    } else {
      assert ParseTodoLine(last) == Some(t);
    }
  }

  /** Every todo line of the reply gives its todo. */
  lemma {:induction false} ParseTodosComplete(lines: seq<string>, l: string)
    requires l in lines && IsTodoLine(l)
    ensures ParseTodoLine(l).value in ParseTodos(lines)
    decreases |lines|
  {
    var init := lines[..|lines| - 1];
    var last := lines[|lines| - 1];
    if l != last {
      assert lines == init + [last];
      ParseTodosComplete(init, l);
    }
  }

  /** A reply made only of todo lines gives one todo per line; one without any gives none. */
  lemma {:induction false} ParseTodosCount(lines: seq<string>)
    ensures (forall l :: l in lines ==> IsTodoLine(l)) ==> |ParseTodos(lines)| == |lines|
    ensures (forall l :: l in lines ==> !IsTodoLine(l)) ==> ParseTodos(lines) == []
    decreases |lines|
  {
    if |lines| > 0 {
      var init := lines[..|lines| - 1];
      ParseTodosCount(init);
      assert forall l :: l in init ==> l in lines;
    }
  }

  /** One `|`-separated piece of the todo line format: a tag and its value, padded. */
  function Segment(lead: string, tag: string, v: string, trail: string): string
  {
    lead + tag + " " + v + trail
  }

  /**
   * The line format the todo prompt asks the model to answer in,
   * `Event: <event> | Risk: <risk> | Action: <action>`, as its three pieces.
   */
  function TodoLineFormat(event: string, risk: string, action: string): string
  {
    Segment("", "Event:", event, " ") + "|" + Segment(" ", "Risk:", risk, " ") + "|" + Segment(" ", "Action:", action, "")
  }

  lemma SegmentWithout(lead: string, tag: string, v: string, trail: string, c: char)
    requires c !in lead && c !in tag && c !in v && c !in trail && c != ' '
    ensures c !in Segment(lead, tag, v, trail)
  {
  }

  /** A field value that the todo line format carries unchanged. */
  predicate PlainField(v: string, tag: string)
  {
    && '|' !in v && !Contains(v, tag)
    && (v == [] || (v[0] !in Whitespace && v[|v| - 1] !in Whitespace))
  }

  /** `s` is made of space characters only. */
  predicate Spaces(s: string)
  {
    forall k :: 0 <= k < |s| ==> s[k] == ' '
  }

  lemma {:induction false} RemoveAfterSpaces(lead: string, x: string, tag: string)
    requires |tag| > 0 && tag[0] != ' ' && Spaces(lead)
    ensures RemoveAll(lead + x, tag) == lead + RemoveAll(x, tag)
    decreases |lead|
  {
    if |lead| > 0 {
      var s := lead + x;
      assert s[0] == ' ' && s[1..] == lead[1..] + x;
      assert !StartsWith(s, tag) by {
        if |tag| <= |s| {
          assert s[..|tag|][0] == ' ';
        }
      }
      assert RemoveAll(s, tag) == [' '] + RemoveAll(lead[1..] + x, tag);
      assert Spaces(lead[1..]);
      RemoveAfterSpaces(lead[1..], x, tag);
      assert lead == [' '] + lead[1..];
    } else {
      assert lead + x == x;
    }
  }

  lemma RemoveLeadingTag(tag: string, x: string)
    requires |tag| > 0
    ensures RemoveAll(tag + x, tag) == RemoveAll(x, tag)
  {
    assert (tag + x)[..|tag|] == tag;
    assert (tag + x)[|tag|..] == x;
  }

  /** Spaces around a value create no occurrence of a tag that has no space. */
  lemma PaddedFree(v: string, tag: string, trail: string)
    requires |tag| > 0 && ' ' !in tag && !Contains(v, tag)
    requires Spaces(trail) && |trail| <= 1
    ensures !Contains(" " + v + trail, tag)
  {
    var s := " " + v + trail;
    assert s[1..] == v + trail;
    assert !Contains(v + trail, tag) by {
      if |trail| == 1 {
        assert trail == [' '];
        ContainsDropLast(v, ' ', tag);
      } else {
        assert v + trail == v;
      }
    }
    assert !StartsWith(s, tag) by {
      assert tag[0] in tag;
      if |tag| <= |s| {
        assert s[..|tag|][0] == ' ';
      }
    }
  }

  lemma SpacesWhite(s: string)
    requires Spaces(s)
    ensures forall k :: 0 <= k < |s| ==> s[k] in Whitespace
  {
  }

  /** One field of a line in the requested format, `<lead><tag> <value><trail>`, gives back its value. */
  lemma FieldRoundTrip(lead: string, tag: string, v: string, trail: string)
    requires |tag| > 0 && ' ' !in tag && PlainField(v, tag)
    requires Spaces(lead) && Spaces(trail) && |trail| <= 1
    ensures Field(Segment(lead, tag, v, trail), tag) == v
  {
    var x := " " + v + trail;
    assert tag[0] in tag;
    assert lead + tag + " " + v + trail == lead + (tag + x);
    RemoveAfterSpaces(lead, tag + x, tag);
    RemoveLeadingTag(tag, x);
    PaddedFree(v, tag, trail);
    RemoveAllFixedIff(x, tag);
    assert RemoveAll(lead + (tag + x), tag) == (lead + " ") + v + trail;
    SpacesWhite(lead + " ");
    SpacesWhite(trail);
    StripPadded(lead + " ", v, trail, Whitespace);
  }

  lemma FormattedSegments(event: string, risk: string, action: string)
    requires '|' !in event && '|' !in risk && '|' !in action
    ensures Split(TodoLineFormat(event, risk, action), '|')
            == [Segment("", "Event:", event, " "), Segment(" ", "Risk:", risk, " "), Segment(" ", "Action:", action, "")]
  {
    var seg0, seg1, seg2 := Segment("", "Event:", event, " "), Segment(" ", "Risk:", risk, " "), Segment(" ", "Action:", action, "");
    SegmentWithout("", "Event:", event, " ", '|');
    SegmentWithout(" ", "Risk:", risk, " ", '|');
    SegmentWithout(" ", "Action:", action, "", '|');
    var rest := seg1 + ['|'] + seg2;
    assert Split(rest, '|') == [seg1, seg2] by {
      SplitAtFirst(seg1, '|', seg2);
      SplitFree(seg2, '|');
    }
    assert Split(TodoLineFormat(event, risk, action), '|') == [seg0] + Split(rest, '|') by {
      assert TodoLineFormat(event, risk, action) == seg0 + ['|'] + rest;
      SplitAtFirst(seg0, '|', rest);
    }
  }

  lemma FormattedIsTodoLine(event: string, risk: string, action: string)
    ensures IsTodoLine(TodoLineFormat(event, risk, action))
  {
    var line := TodoLineFormat(event, risk, action);
    var seg0, seg1, seg2 := Segment("", "Event:", event, " "), Segment(" ", "Risk:", risk, " "), Segment(" ", "Action:", action, "");
    assert exists i :: OccursAt(line, "| Risk:", i) by {
      assert line == seg0 + "| Risk:" + (" " + risk + " " + "|" + seg2);
      OccursBetween(seg0, "| Risk:", " " + risk + " " + "|" + seg2);
    }
    assert exists j :: OccursAt(line, "| Action:", j) by {
      assert line == (seg0 + "|" + seg1) + "| Action:" + (" " + action);
      OccursBetween(seg0 + "|" + seg1, "| Action:", " " + action);
    }
  }

  /** Parsing a line in the requested format gives back its three fields. */
  lemma ParseFormattedLine(event: string, risk: string, action: string)
    requires PlainField(event, "Event:") && PlainField(risk, "Risk:") && PlainField(action, "Action:")
    ensures ParseTodoLine(TodoLineFormat(event, risk, action)) == Some(Todo(event, risk, action, false))
  {
    var line := TodoLineFormat(event, risk, action);
    var parts := Split(line, '|');
    assert parts == [Segment("", "Event:", event, " "), Segment(" ", "Risk:", risk, " "), Segment(" ", "Action:", action, "")] by {
      FormattedSegments(event, risk, action);
    }
    assert IsTodoLine(line) by {
      FormattedIsTodoLine(event, risk, action);
    }
    assert Field(parts[0], "Event:") == event by {
      FieldRoundTrip("", "Event:", event, " ");
    }
    assert Field(parts[1], "Risk:") == risk by {
      FieldRoundTrip(" ", "Risk:", risk, " ");
    }
    assert Field(parts[2], "Action:") == action by {
      FieldRoundTrip(" ", "Action:", action, "");
    }
  }

  /** Python's `next((e for e in events if text in e['details']), None)`, as a position. */
  function FirstMatch(events: seq<Event>, text: string): (r: Option<nat>)
    ensures r.Some? ==> r.value < |events| && Contains(events[r.value].details, text)
    ensures r.Some? ==> forall j :: 0 <= j < r.value ==> !Contains(events[j].details, text)
    ensures r.None? ==> forall j :: 0 <= j < |events| ==> !Contains(events[j].details, text)
    decreases |events|
  {
    if |events| == 0 then None
    else if Contains(events[0].details, text) then Some(0)
    else
      match FirstMatch(events[1..], text)
      case None => None
      case Some(i) => Some(i + 1)
  }

  /** An empty event text is a substring of every details text, so it matches the newest event. */
  lemma EmptyTextMatchesFirst(events: seq<Event>)
    requires |events| > 0
    ensures FirstMatch(events, "") == Some(0)
  {
  }

  /**
   * The alert one todo raises: none when its event text occurs in no event's
   * details, otherwise one for the first such event, labelled with the todo's
   * risk and carrying its action.
   */
  function TodoAlert(events: seq<Event>, t: Todo, id: int, created: int): (r: seq<Alert>)
    ensures |r| <= 1 && (r != [] <==> FirstMatch(events, t.event).Some?)
    ensures r != [] ==> r[0].event == events[FirstMatch(events, t.event).value]
                        && r[0].kind == t.risk && r[0].auto == t.action && !r[0].dismissed && Styled(r[0])
  {
    match FirstMatch(events, t.event)
    case None => []
    case Some(i) => [NewAlert(events[i], t.risk, Some(t.action), id, created)]
  }

  /**
   * The alerts raised while todos are parsed, newest first. The todo at
   * position k draws id `ids(k)` and creation time `times(k)`.
   */
  function TodoAlerts(events: seq<Event>, todos: seq<Todo>, ids: nat -> int, times: nat -> int): (r: seq<Alert>)
    ensures |r| <= |todos|
    ensures forall k :: 0 <= k < |r| ==> !r[k].dismissed && r[k].event in events && Styled(r[k])
    decreases |todos|
  {
    if |todos| == 0 then []
    else
      var k := |todos| - 1;
      TodoAlert(events, todos[k], ids(k), times(k)) + TodoAlerts(events, todos[..k], ids, times)
  }

  /** A todo appended to the reply puts its own alert, if any, in front. */
  lemma TodoAlertsSnoc(events: seq<Event>, todos: seq<Todo>, t: Todo, ids: nat -> int, times: nat -> int)
    ensures TodoAlerts(events, todos + [t], ids, times)
            == TodoAlert(events, t, ids(|todos|), times(|todos|)) + TodoAlerts(events, todos, ids, times)
  {
    assert (todos + [t])[..|todos|] == todos;
  }

  /** Without events no todo raises an alert. */
  lemma TodoAlertsNoEvents(todos: seq<Todo>, ids: nat -> int, times: nat -> int)
    ensures TodoAlerts([], todos, ids, times) == []
  {
  }

  /** If every todo matches some event, every todo raises an alert. */
  lemma {:induction false} TodoAlertsCount(events: seq<Event>, todos: seq<Todo>, ids: nat -> int, times: nat -> int)
    requires forall k :: 0 <= k < |todos| ==> FirstMatch(events, todos[k].event).Some?
    ensures |TodoAlerts(events, todos, ids, times)| == |todos|
    decreases |todos|
  {
    if |todos| > 0 {
      var k := |todos| - 1;
      var init := todos[..k];
      forall j | 0 <= j < |init| ensures FirstMatch(events, init[j].event).Some? {
        assert init[j] == todos[j];
      }
      TodoAlertsCount(events, init, ids, times);
      assert |TodoAlert(events, todos[k], ids(k), times(k))| == 1;
    }
  }

  /**
   * One line of the event summary sent in prompts. It ends with the status
   * the event has when the summary is built, and it is one line when the
   * details and the status hold no line break.
   */
  function EventLine(e: Event): (line: string)
    reads e
    ensures |line| > |e.status| && line[|line| - |e.status| - 1..] == e.status + ")"
    ensures '\n' !in e.details && '\n' !in e.status ==> '\n' !in line
  {
    var head := e.kind.Name() + ": " + e.details + " (Status: ";
    assert (head + (e.status + ")"))[|head|..] == e.status + ")";
    head + (e.status + ")")
  }

  function EventLines(events: seq<Event>): (lines: seq<string>)
    reads set e | e in events
    ensures |lines| == |events|
    ensures forall k :: 0 <= k < |events| ==> lines[k] == EventLine(events[k])
    decreases |events|
  {
    if |events| == 0 then [] else [EventLine(events[0])] + EventLines(events[1..])
  }

  /** The event summary of a prompt: the ten newest events, one line each, newest first. */
  function EventsText(events: seq<Event>): (text: string)
    reads set e | e in events
    ensures events == [] ==> text == []
    ensures events != [] ==> StartsWith(text, EventLine(events[0]))
  {
    Join(EventLines(events[..if |events| < 10 then |events| else 10]), '\n')
  }

  /**
   * When no details or status holds a line break, the summary splits back
   * into exactly one line per event, for the ten newest events.
   */
  lemma EventsTextLines(events: seq<Event>)
    requires |events| > 0
    requires forall k :: 0 <= k < |events| && k < 10 ==> '\n' !in events[k].details && '\n' !in events[k].status
    ensures var shown := events[..if |events| < 10 then |events| else 10];
            Split(EventsText(events), '\n') == EventLines(shown) && |EventLines(shown)| <= 10
  {
    var shown := events[..if |events| < 10 then |events| else 10];
    var lines := EventLines(shown);
    forall k | 0 <= k < |lines| ensures '\n' !in lines[k] {
      assert lines[k] == EventLine(shown[k]);
    }
    SplitJoin(lines, '\n');
  }
}
