/**
 * The session state of the dashboard and the operator actions that change it:
 * submitting an event, running the orchestrator on an event, raising and
 * dismissing alerts, turning a model's reply into todos, ticking a todo.
 */
module Dashboard {
  import opened Wrappers
  import opened Text
  import opened Triage

  /** One dashboard session: the event store, the decision log, the alerts and the todos. */
  class Session {
    var events: seq<Event>
    var orchestratorLog: seq<Decision>
    var alerts: seq<Alert>
    var todos: seq<Todo>

    /** Every decision records the classification of its answers; every alert carries a row of the risk table. */
    ghost predicate Valid()
      reads this
    {
      && (forall d :: d in orchestratorLog ==> Recorded(d))
      && (forall a :: a in alerts ==> Styled(a))
    }

    /**
     * A fresh session. The stores start from what was loaded, or empty when
     * loading failed; the decision log and the alerts always start empty.
     */
    constructor (loadedEvents: Option<seq<Event>>, loadedTodos: Option<seq<Todo>>)
      ensures Valid()
      ensures events == (if loadedEvents.Some? then loadedEvents.value else [])
      ensures todos == (if loadedTodos.Some? then loadedTodos.value else [])
      ensures orchestratorLog == [] && alerts == []
    {
      events := if loadedEvents.Some? then loadedEvents.value else [];
      todos := if loadedTodos.Some? then loadedTodos.value else [];
      orchestratorLog := [];
      alerts := [];
    }

    /**
     * The event form: a submission with details puts a new Pending event in
     * front of the store; one with empty details changes nothing.
     */
    method SubmitEvent(kind: EventType, details: string, id: int, now: int) returns (added: Option<Event>)
      requires Valid()
      modifies this
      ensures Valid()
      ensures added.Some? <==> details != []
      ensures added.None? ==> events == old(events)
      ensures added.Some? ==>
                && fresh(added.value) && events == [added.value] + old(events)
                && added.value.status == "Pending" && added.value.details == details
                && added.value.kind == kind && added.value.id == id && added.value.time == now
      ensures orchestratorLog == old(orchestratorLog) && alerts == old(alerts) && todos == old(todos)
    {
      if details != [] {
        var e := new Event(id, kind, details, now);
        events := [e] + events;
        added := Some(e);
      } else {
        added := None;
      }
    }

    /**
     * `add_alert_dynamic`: a new, undismissed alert of the given risk label,
     * styled by the risk table with the "Low" row as fallback, goes in front.
     */
    method AddAlertDynamic(event: Event, riskLevel: string, autoAction: Option<string>, id: int, created: int)
      requires Valid()
      modifies this
      ensures Valid()
      ensures alerts == [NewAlert(event, riskLevel, autoAction, id, created)] + old(alerts)
      ensures alerts[0].kind == riskLevel && alerts[0].event == event && !alerts[0].dismissed
      ensures AlertStyle(alerts[0].styleClass, alerts[0].urgency) == StyleFor(riskLevel)
      ensures alerts[0].auto == (if autoAction.Some? then autoAction.value else "")
      ensures events == old(events) && orchestratorLog == old(orchestratorLog) && todos == old(todos)
    {
      alerts := [NewAlert(event, riskLevel, autoAction, id, created)] + alerts;
    }

    /**
     * `process_orchestrator_decision`: classifies the answers, logs the
     * decision in front, sets the event's status to the outcome and raises an
     * alert typed by the classification. The log entry and the alert hold the
     * event itself, so both see its new status.
     */
    method ProcessOrchestratorDecision(event: Event, answers: Answers, decidedAt: int, alertId: int, alertCreated: int)
      returns (outcome: string, color: string)
      requires Valid()
      modifies this, event
      ensures Valid()
      ensures outcome == Classify(answers).outcome && color == Classify(answers).color
      ensures orchestratorLog == [Decision(event, answers, outcome, color, decidedAt)] + old(orchestratorLog)
      ensures alerts == [NewAlert(event, Classify(answers).alertType, None, alertId, alertCreated)] + old(alerts)
      ensures event.status == outcome
      ensures orchestratorLog[0].event.status == outcome && alerts[0].event.status == outcome
      ensures alerts[0].urgency == 14400 && alerts[0].styleClass == "alert-rounding" && alerts[0].auto == ""
      ensures events == old(events) && todos == old(todos)
    {
      var c := Classify(answers);
      outcome, color := c.outcome, c.color;
      orchestratorLog := [Decision(event, answers, outcome, color, decidedAt)] + orchestratorLog;
      event.status := outcome;
      OrchestratorAlertsFallBack(answers);
      AddAlertDynamic(event, c.alertType, None, alertId, alertCreated);
    }

    /** The Dismiss button: marks the alert at `index` dismissed and changes nothing else. */
    method Dismiss(index: nat)
      requires Valid() && index < |alerts|
      modifies this
      ensures Valid()
      ensures alerts == DismissAt(old(alerts), index)
      ensures events == old(events) && orchestratorLog == old(orchestratorLog) && todos == old(todos)
    {
      ghost var before := alerts;
      alerts := alerts[index := alerts[index].(dismissed := true)];
      forall a | a in alerts ensures Styled(a) {
        var k :| 0 <= k < |alerts| && alerts[k] == a;
        assert Styled(before[k]);
      }
    }

    /** The Alert Matrix loop: the alerts not dismissed, in stored order. */
    method ActiveView() returns (view: seq<Alert>)
      ensures view == ActiveAlerts(alerts)
    {
      view := [];
      var i := 0;
      while i < |alerts|
        invariant 0 <= i <= |alerts|
        invariant view == ActiveAlerts(alerts[..i])
      {
        assert alerts[..i + 1][..i] == alerts[..i];
        if !alerts[i].dismissed {
          view := view + [alerts[i]];
        }
        i := i + 1;
      }
      assert alerts[..i] == alerts;
    }

    /** The parsing loop of the todo block: the todos of the reply's lines, in order. */
    method ParseTodoReply(lines: seq<string>) returns (parsed: seq<Todo>)
      ensures parsed == ParseTodos(lines)
    {
      parsed := [];
      var i := 0;
      while i < |lines|
        invariant 0 <= i <= |lines|
        invariant parsed == ParseTodos(lines[..i])
      {
        var t := ParseTodoLine(lines[i]);
        assert lines[..i + 1][..i] == lines[..i];
        if t.Some? {
          parsed := parsed + [t.value];
        }
        i := i + 1;
      }
      assert lines[..i] == lines;
    }

    /**
     * The todo block of the dashboard, given the lines of the model's reply:
     * each todo line becomes a todo; a todo whose event text occurs in the
     * details of some event raises an alert for the first such event with the
     * todo's risk and action; the todo list is replaced by the parsed todos
     * only when there is at least one. The todo at position k draws alert id
     * `ids(k)` and creation time `times(k)`. Parsing has no effect on the
     * session, so parsing all lines first and then raising the alerts in
     * order leaves the same state as interleaving the two line by line.
     */
    method IngestTodoReply(lines: seq<string>, ids: nat -> int, times: nat -> int)
      requires Valid()
      modifies this
      ensures Valid()
      ensures todos == (if ParseTodos(lines) != [] then ParseTodos(lines) else old(todos))
      ensures alerts == TodoAlerts(events, ParseTodos(lines), ids, times) + old(alerts)
      ensures events == old(events) && orchestratorLog == old(orchestratorLog)
    {
      var newTodos := ParseTodoReply(lines);
      RaiseTodoAlerts(newTodos, ids, times);
      if newTodos != [] {
        todos := newTodos;
      }
    }

    /** The alerting part of the todo block: each parsed todo, in order, raises its alert. */
    method RaiseTodoAlerts(parsed: seq<Todo>, ids: nat -> int, times: nat -> int)
      requires Valid()
      modifies this
      ensures Valid()
      ensures alerts == TodoAlerts(events, parsed, ids, times) + old(alerts)
      ensures events == old(events) && orchestratorLog == old(orchestratorLog) && todos == old(todos)
    {
      ghost var evs, before := events, alerts;
      var k := 0;
      while k < |parsed|
        invariant 0 <= k <= |parsed|
        invariant Valid()
        invariant alerts == TodoAlerts(evs, parsed[..k], ids, times) + before
        invariant events == evs && orchestratorLog == old(orchestratorLog) && todos == old(todos)
      {
        ghost var earlier := TodoAlerts(evs, parsed[..k], ids, times);
        RaiseTodoAlert(parsed[k], ids(k), times(k));
        ghost var raised := TodoAlert(evs, parsed[k], ids(k), times(k));
        AppendAssoc(raised, earlier, before);
        assert TodoAlerts(evs, parsed[..k + 1], ids, times) == raised + earlier by {
          assert parsed[..k + 1] == parsed[..k] + [parsed[k]];
          TodoAlertsSnoc(evs, parsed[..k], parsed[k], ids, times);
        }
        k := k + 1;
      }
      assert parsed[..k] == parsed;
    }

    /**
     * The alert one parsed todo raises: if its event text occurs in the
     * details of some event, an alert for the first such event, with the
     * todo's risk as its label and the todo's action as its automatic action.
     */
    method RaiseTodoAlert(todo: Todo, id: int, created: int)
      requires Valid()
      modifies this
      ensures Valid()
      ensures alerts == TodoAlert(events, todo, id, created) + old(alerts)
      ensures events == old(events) && orchestratorLog == old(orchestratorLog) && todos == old(todos)
    {
      var matching := FirstMatch(events, todo.event);
      if matching.Some? {
        AddAlertDynamic(events[matching.value], todo.risk, Some(todo.action), id, created);
      }
    }

    /** Ticking or unticking todo `index`: only its `done` flag changes, and only if it differs. */
    method SetTodoDone(index: nat, checked: bool)
      requires Valid() && index < |todos|
      modifies this
      ensures Valid()
      ensures todos == old(todos)[index := old(todos)[index].(done := checked)]
      ensures events == old(events) && orchestratorLog == old(orchestratorLog) && alerts == old(alerts)
    {
      if checked != todos[index].done {
        todos := todos[index := todos[index].(done := checked)];
      }
    }
  }

  /**
   * The orchestrator is not idempotent: a second run on the same event with
   * the same answers logs a second decision and raises a second alert, while
   * the status it sets is the same.
   */
  method DecideTwice(s: Session, event: Event, answers: Answers, t1: int, t2: int, id1: int, id2: int)
    requires s.Valid()
    modifies s, event
    ensures s.Valid()
    ensures |s.orchestratorLog| == |old(s.orchestratorLog)| + 2
    ensures |s.alerts| == |old(s.alerts)| + 2
    ensures s.orchestratorLog[0].event == s.orchestratorLog[1].event == event
    ensures event.status == Classify(answers).outcome
  {
    var o1, c1 := s.ProcessOrchestratorDecision(event, answers, t1, id1, t1);
    var o2, c2 := s.ProcessOrchestratorDecision(event, answers, t2, id2, t2);
  }
}
