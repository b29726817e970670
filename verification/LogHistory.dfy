/** The log stream read off the past: the files, the stored cursor, the poll that is under
    way and the texts delivered, and which steps may come next, in terms of the steps taken
    so far alone. */
module LogHistory {
  import opened Bytes
  import opened LogStream

  /** What a run starts from. */
  datatype Origin = Origin(files: Files, today: int, cursor: PlantState)

  // What happened --------------------------------------------------------------------------

  function Today(o: Origin, actions: seq<Action>): int {
    if actions == [] then o.today
    else
      var a := actions[|actions| - 1];
      Today(o, actions[..|actions| - 1]) + if a.NextDay? then a.days else 0
  }

  /** The line that has its time stamp and is not yet written, with the day of the stamp. */
  function Waiting(o: Origin, actions: seq<Action>): Option<Stamped> {
    if actions == [] then None
    else
      var before := actions[..|actions| - 1];
      match actions[|actions| - 1]
      case Stamp(line) => Some(Stamped(Today(o, before), line))
      case Flush(_) => None
      case Crash => None
      case _ => Waiting(o, before)
  }

  /** The text of one day's file: what it was, and all that was written to it since. */
  function FileText(o: Origin, actions: seq<Action>, day: int): string {
    if actions == [] then if day in o.files then o.files[day] else ""
    else
      var before, a := actions[..|actions| - 1], actions[|actions| - 1];
      var waiting := Waiting(o, before);
      FileText(o, before, day)
      + if a.Flush? && waiting.Some? && waiting.value.day == day && a.count <= |waiting.value.line|
        then waiting.value.line[..a.count] else ""
  }

  /** The file exists: it did, or a line was written to it. */
  predicate HasFile(o: Origin, actions: seq<Action>, day: int) {
    if actions == [] then day in o.files
    else
      var before := actions[..|actions| - 1];
      HasFile(o, before, day)
      || (actions[|actions| - 1].Flush? && Waiting(o, before).Some? && Waiting(o, before).value.day == day)
  }

  /** How the latest poll was taken further. */
  datatype Progress = NoPoll | Polled | Sent

  function ProgressOf(actions: seq<Action>): Progress {
    if actions == [] then NoPoll
    else
      match actions[|actions| - 1]
      case Poll => Polled
      case PublishSucceeds => Sent
      case PublishFails => NoPoll
      case CommitFails => NoPoll
      case CommitSucceeds => NoPoll
      case Crash => NoPoll
      case _ => ProgressOf(actions[..|actions| - 1])
  }

  /** The run up to its latest poll. */
  function UpToPoll(actions: seq<Action>): (earlier: seq<Action>)
    ensures |earlier| < |actions| || earlier == actions == []
  {
    if actions == [] then []
    else
      var before := actions[..|actions| - 1];
      if actions[|actions| - 1].Poll? then before else UpToPoll(before)
  }

  /** The stored cursor: that of the latest poll that was committed. */
  ghost function Cursor(o: Origin, actions: seq<Action>): PlantState
    decreases |actions|, 0
  {
    if actions == [] then o.cursor
    else
      var before := actions[..|actions| - 1];
      if actions[|actions| - 1].CommitSucceeds? && Reading(o, UpToPoll(before)).Ok?
      then Reading(o, UpToPoll(before)).value.next
      else Cursor(o, before)
  }

  /** What a poll at this moment reads: nothing, to go on behind the file of the day, for a
      cursor that is unset or older than yesterday; else the rest of the cursor's file. */
  ghost function Reading(o: Origin, actions: seq<Action>): Result<Read, Error>
    decreases |actions|, 1
  {
    var cursor, today := Cursor(o, actions), Today(o, actions);
    match cursor.date
    case Unreadable => Err(BadDate)
    case Unset => Ok(Read(None, PlantState(On(today), |FileText(o, actions, today)|)))
    case On(day) =>
      if day < today - 1 then Ok(Read(None, PlantState(On(today), |FileText(o, actions, today)|)))
      else if cursor.pos < 0 then Err(NegativePosition)
      else
        var text := FileText(o, actions, day);
        var rest := if cursor.pos <= |text| then text[cursor.pos..] else "";
        Ok(Read(if HasFile(o, actions, day) then Some(rest) else None,
                if day == today - 1 then PlantState(On(today), 0) else PlantState(On(day), cursor.pos + |rest|)))
  }

  /** The texts delivered, one for each commit. */
  ghost function Texts(o: Origin, actions: seq<Action>): seq<string>
    decreases |actions|
  {
    if actions == [] then []
    else
      var before := actions[..|actions| - 1];
      Texts(o, before)
      + if actions[|actions| - 1].CommitSucceeds? && Reading(o, UpToPoll(before)).Ok?
        then [Offered(Reading(o, UpToPoll(before)).value)] else []
  }

  // Which steps may come next ----------------------------------------------------------------

  ghost predicate May(o: Origin, actions: seq<Action>, a: Action) {
    match a
    case Stamp(_) => Waiting(o, actions).None?
    case Flush(count) => Waiting(o, actions).Some? && count <= |Waiting(o, actions).value.line|
    case NextDay(days) => days >= 1
    case Poll => ProgressOf(actions) == NoPoll && Reading(o, actions).Ok?
    case PublishFails => ProgressOf(actions) == Polled
    case PublishSucceeds => ProgressOf(actions) == Polled
    case CommitFails => ProgressOf(actions) == Sent
    case CommitSucceeds => ProgressOf(actions) == Sent
    case Crash => true
  }

  ghost predicate Lawful(o: Origin, actions: seq<Action>) {
    actions != [] ==>
      Lawful(o, actions[..|actions| - 1]) && May(o, actions[..|actions| - 1], actions[|actions| - 1])
  }

  // The state read off the past ----------------------------------------------------------------

  ghost predicate FileTold(o: Origin, actions: seq<Action>, w: World, day: int) {
    (day in w.files <==> HasFile(o, actions, day)) && Contents(w.files, day) == FileText(o, actions, day)
  }

  ghost predicate Told(o: Origin, actions: seq<Action>, w: World) {
    && w.today == Today(o, actions) && w.writer == Waiting(o, actions)
    && w.cursor == Cursor(o, actions) && w.committed == Texts(o, actions)
    && (w.prepared.None? <==> ProgressOf(actions) == NoPoll)
    && (w.prepared.Some? ==>
          && (w.prepared.value.published <==> ProgressOf(actions) == Sent)
          && Reading(o, UpToPoll(actions)) == Ok(w.prepared.value.read))
    && forall day :: FileTold(o, actions, w, day)
  }

  function Begin(o: Origin): World {
    Initial(o.files, o.today, o.cursor)
  }

  /** Polling the files as they are told reads what is told. */
  lemma PollTold(o: Origin, actions: seq<Action>, w: World)
    requires Told(o, actions, w)
    ensures Prepare(w.files, w.today, w.cursor) == Reading(o, actions)
  {
    assert FileTold(o, actions, w, w.today);
    if w.cursor.date.On? {
      var day, pos := w.cursor.date.day, w.cursor.pos;
      assert FileTold(o, actions, w, day);
      if pos >= 0 && day in w.files && pos == |w.files[day]| {
        assert w.files[day][pos..] == "";
      }
    }
  }

  lemma FileToldStep(o: Origin, before: seq<Action>, a: Action, actions: seq<Action>, w: World, day: int)
    requires actions == before + [a] && Enabled(w, a)
    requires w.writer == Waiting(o, before) && FileTold(o, before, w, day)
    ensures FileTold(o, actions, Step(w, a), day)
  {
    assert actions[..|actions| - 1] == before;
    assert FileText(o, before, day) + "" == FileText(o, before, day);
  }

  lemma ClockTold(o: Origin, before: seq<Action>, a: Action, actions: seq<Action>, w: World)
    requires actions == before + [a] && Enabled(w, a) && w.today == Today(o, before) && w.writer == Waiting(o, before)
    ensures Step(w, a).today == Today(o, actions) && Step(w, a).writer == Waiting(o, actions)
  {
    assert actions[..|actions| - 1] == before;
  }

  lemma CursorTold(o: Origin, before: seq<Action>, a: Action, actions: seq<Action>, w: World)
    requires actions == before + [a] && Enabled(w, a) && Told(o, before, w)
    ensures Step(w, a).cursor == Cursor(o, actions) && Step(w, a).committed == Texts(o, actions)
  {
    assert actions[..|actions| - 1] == before;
    if !a.CommitSucceeds? {
      assert Texts(o, before) + [] == Texts(o, before);
    }
  }

  lemma ProgressTold(o: Origin, before: seq<Action>, a: Action, actions: seq<Action>, w: World)
    requires actions == before + [a] && Enabled(w, a) && Told(o, before, w)
    ensures var w' := Step(w, a);
            && (w'.prepared.None? <==> ProgressOf(actions) == NoPoll)
            && (w'.prepared.Some? ==>
                  && (w'.prepared.value.published <==> ProgressOf(actions) == Sent)
                  && Reading(o, UpToPoll(actions)) == Ok(w'.prepared.value.read))
  {
    assert actions[..|actions| - 1] == before;
    PollTold(o, before, w);
  }

  lemma ToldStep(o: Origin, before: seq<Action>, a: Action, actions: seq<Action>, w: World)
    requires actions == before + [a] && Enabled(w, a) && Told(o, before, w)
    ensures Told(o, actions, Step(w, a))
  {
    ClockTold(o, before, a, actions, w);
    CursorTold(o, before, a, actions, w);
    ProgressTold(o, before, a, actions, w);
    forall day ensures FileTold(o, actions, Step(w, a), day) {
      assert FileTold(o, before, w, day);
      FileToldStep(o, before, a, actions, w, day);
    }
  }

  /** After any run the files, the cursor, the poll under way and the texts delivered are
      what the steps so far say. */
  lemma {:induction false} RunTold(o: Origin, actions: seq<Action>)
    requires Runs(Begin(o), actions)
    ensures Told(o, actions, After(Begin(o), actions))
    decreases |actions|
  {
    if actions != [] {
      var before, a := actions[..|actions| - 1], actions[|actions| - 1];
      assert actions == before + [a];
      RunTold(o, before);
      ToldStep(o, before, a, actions, After(Begin(o), before));
    }
  }

  /** The runs of the log stream are exactly the lawful sequences of steps. */
  lemma {:induction false} RunsIffLawful(o: Origin, actions: seq<Action>)
    ensures Runs(Begin(o), actions) <==> Lawful(o, actions)
    decreases |actions|
  {
    if actions != [] {
      var before, a := actions[..|actions| - 1], actions[|actions| - 1];
      RunsIffLawful(o, before);
      if Runs(Begin(o), before) {
        RunTold(o, before);
        MayIff(o, before, After(Begin(o), before), a);
      }
    }
  }

  lemma MayIff(o: Origin, actions: seq<Action>, w: World, a: Action)
    requires Told(o, actions, w)
    ensures Enabled(w, a) <==> May(o, actions, a)
  {
    PollTold(o, actions, w);
  }
}
