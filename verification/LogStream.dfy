/** Incremental delivery of the daily log (internal/cloud/logstream.go), the protocol of
    internal/cloud/handler.go around it, and the writer of internal/logbuf/logbuf.go.
    Days are integers; a log file is its text. */
module LogStream {
  import opened Bytes

  datatype LogDate = Unset | On(day: int) | Unreadable

  datatype PlantState = PlantState(date: LogDate, pos: int)

  datatype Read = Read(text: Option<string>, next: PlantState)

  datatype Error = BadDate | NegativePosition

  type Files = map<int, string>

  /** A missing file counts as empty. */
  function Contents(files: Files, day: int): string {
    if day in files then files[day] else ""
  }

  /** The rest of a day's file, the position after it, and whether the file exists. */
  function ReadFrom(files: Files, day: int, position: int): Result<(Option<string>, int, bool), Error> {
    if position < 0 then Err(NegativePosition)
    else if day !in files then Ok((None, position, false))
    else if position >= |files[day]| then Ok((Some(""), position, true))
    else Ok((Some(files[day][position..]), |files[day]|, true))
  }

  function AtEnd(files: Files, today: int): Read {
    Read(None, PlantState(On(today), |Contents(files, today)|))
  }

  /** No cursor, or one older than yesterday: start over at the end of today's file. */
  predicate StartsOver(current: PlantState, today: int) {
    current.date.Unset? || (current.date.On? && current.date.day < today - 1)
  }

  function Prepare(files: Files, today: int, current: PlantState): Result<Read, Error> {
    if StartsOver(current, today) then Ok(AtEnd(files, today))
    else if current.date.Unreadable? then Err(BadDate)
    else
      match ReadFrom(files, current.date.day, current.pos)
      case Err(error) => Err(error)
      case Ok((text, position, exists_)) =>
        if current.date.day == today - 1 then Ok(Read(text, PlantState(On(today), 0)))
        else Ok(Read(text, PlantState(current.date, if exists_ then position else current.pos)))
  }

  /** A poll without a cursor, or with one older than yesterday, offers nothing and goes on
      behind whatever the day's file holds by then. */
  lemma StartsOverAtEnd(files: Files, today: int, current: PlantState)
    requires current.date == Unset || (current.date.On? && current.date.day < today - 1)
    ensures Prepare(files, today, current)
            == Ok(Read(None, PlantState(On(today), if today in files then |files[today]| else 0)))
  {
  }

  /** A poll from a cursor of yesterday or later reads on, if the position is not negative:
      all of the file behind the position, nothing if the position is past the end, and no
      text if there is no file. Yesterday's cursor then moves to the start of today. */
  lemma ReadsOn(files: Files, today: int, day: int, pos: int)
    requires day >= today - 1
    ensures pos < 0 <==> Prepare(files, today, PlantState(On(day), pos)).Err?
    ensures pos >= 0 ==>
              var read := Prepare(files, today, PlantState(On(day), pos)).value;
              && (day !in files ==> read.text == None)
              && (day in files && pos <= |files[day]| ==> read.text == Some(files[day][pos..]))
              && (day in files && pos > |files[day]| ==> read.text == Some(""))
              && read.next == if day == today - 1 then PlantState(On(today), 0)
                              else if day in files && pos < |files[day]| then PlantState(On(day), |files[day]|)
                              else PlantState(On(day), pos)
  {
    if pos >= 0 && day in files && pos == |files[day]| {
      assert files[day][pos..] == "";
    }
  }

  /** Polls fail on an unreadable date or a negative position that is to be used, and only
      then. */
  lemma PollFailsIff(files: Files, today: int, current: PlantState)
    ensures Prepare(files, today, current).Err? <==>
              current.date == Unreadable || (current.date.On? && current.date.day >= today - 1 && current.pos < 0)
    ensures current.date == Unreadable ==> Prepare(files, today, current) == Err(BadDate)
    ensures current.date.On? && Prepare(files, today, current).Err? ==>
              Prepare(files, today, current) == Err(NegativePosition)
  {
  }

  // Slices of the log -------------------------------------------------------------

  /** A position in the log. */
  datatype Mark = Mark(day: int, pos: nat)

  predicate Within(files: Files, m: Mark) {
    m.pos <= |Contents(files, m.day)|
  }

  predicate Before(a: Mark, b: Mark) {
    a.day < b.day || (a.day == b.day && a.pos <= b.pos)
  }

  /** Everything logged from one mark to another, days joined in order. */
  function Slice(files: Files, a: Mark, b: Mark): string
    requires Within(files, a) && Within(files, b) && Before(a, b)
    decreases b.day - a.day
  {
    if a.day == b.day then Contents(files, a.day)[a.pos..b.pos]
    else Contents(files, a.day)[a.pos..] + Slice(files, Mark(a.day + 1, 0), b)
  }

  lemma PartsOfText(text: string, i: nat, j: nat, k: nat)
    requires i <= j <= k <= |text|
    ensures text[i..j] + text[j..k] == text[i..k]
  {
  }

  lemma RestOfText(text: string, i: nat, j: nat, later: string)
    requires i <= j <= |text|
    ensures text[i..j] + (text[j..] + later) == text[i..] + later
  {
  }

  lemma {:induction false} SliceJoin(files: Files, a: Mark, b: Mark, c: Mark)
    requires Within(files, a) && Within(files, b) && Within(files, c) && Before(a, b) && Before(b, c)
    ensures Slice(files, a, b) + Slice(files, b, c) == Slice(files, a, c)
    decreases b.day - a.day
  {
    var text := Contents(files, a.day);
    if a.day < b.day {
      SliceJoin(files, Mark(a.day + 1, 0), b, c);
      Assoc(text[a.pos..], Slice(files, Mark(a.day + 1, 0), b), Slice(files, b, c));
    } else if b.day < c.day {
      RestOfText(text, a.pos, b.pos, Slice(files, Mark(a.day + 1, 0), c));
    } else {
      PartsOfText(text, a.pos, b.pos, c.pos);
    }
  }

  /** The log after a line was appended to one day's file. */
  function Append(files: Files, day: int, line: string): Files {
    files[day := Contents(files, day) + line]
  }

  /** Only the day's own file changes, and only at its end. */
  lemma AppendTold(files: Files, day: int, line: string)
    ensures day in Append(files, day, line)
    ensures Append(files, day, line)[day] == if day in files then files[day] + line else line
    ensures forall other | other != day ::
              && (other in Append(files, day, line) <==> other in files)
              && (other in files ==> Append(files, day, line)[other] == files[other])
  {
    assert "" + line == line;
  }

  /** Appending outside the days passed since a leaves a slice alone. */
  lemma {:induction false} SliceStable(files: Files, a: Mark, b: Mark, day: int, line: string)
    requires Within(files, a) && Within(files, b) && Before(a, b)
    requires day < a.day || day >= b.day
    ensures Within(Append(files, day, line), a) && Within(Append(files, day, line), b)
    ensures Slice(Append(files, day, line), a, b) == Slice(files, a, b)
    decreases b.day - a.day
  {
    if a.day < b.day {
      SliceStable(files, Mark(a.day + 1, 0), b, day, line);
    }
  }

  /** Appending to a day already passed lengthens the slice. */
  lemma {:induction false} SliceGrows(files: Files, a: Mark, b: Mark, day: int, line: string)
    requires Within(files, a) && Within(files, b) && Before(a, b)
    requires a.day <= day < b.day
    ensures Within(Append(files, day, line), a) && Within(Append(files, day, line), b)
    ensures |Slice(Append(files, day, line), a, b)| == |Slice(files, a, b)| + |line|
    decreases b.day - a.day
  {
    if a.day < day {
      SliceGrows(files, Mark(a.day + 1, 0), b, day, line);
    } else {
      SliceStable(files, Mark(a.day + 1, 0), b, day, line);
    }
  }

  // What one poll offers ------------------------------------------------------------

  predicate GoodCursor(files: Files, today: int, s: PlantState) {
    s.date.On? && s.date.day <= today && 0 <= s.pos <= |Contents(files, s.date.day)|
  }

  function ToMark(s: PlantState): Mark
    requires s.date.On? && s.pos >= 0
  {
    Mark(s.date.day, s.pos)
  }

  function Offered(read: Read): string {
    if read.text.Some? then read.text.value else ""
  }

  /** A poll from a cursor no older than yesterday offers exactly the log between the
      cursor and the next cursor, also across midnight. */
  lemma PollOffersSlice(files: Files, today: int, s: PlantState)
    requires GoodCursor(files, today, s) && s.date.day >= today - 1
    ensures Prepare(files, today, s).Ok?
    ensures var read := Prepare(files, today, s).value;
            && GoodCursor(files, today, read.next)
            && Before(ToMark(s), ToMark(read.next))
            && Offered(read) == Slice(files, ToMark(s), ToMark(read.next))
            && read.next.date.day == today
  {
    var text := Contents(files, s.date.day);
    if s.date.day == today - 1 {
      assert Slice(files, Mark(today, 0), Mark(today, 0)) == "";
      assert text[s.pos..] + "" == text[s.pos..];
    }
  }

  // The running system ---------------------------------------------------------------

  /** A log line whose time stamp is fixed but which is not yet in its file. */
  datatype Stamped = Stamped(day: int, line: string)

  datatype Prepared = Prepared(read: Read, startsOver: bool, published: bool)

  /** origin is the first cursor there was, committed the texts of all committed polls;
      both are history and are never taken back. A crash is one of the process: files and
      the stored cursor stay. What a crash of the machine may do to the cursor is in the
      Store module, and what follows from it below (RevertedCursorRepeats). */
  datatype World = World(
    files: Files,
    today: int,
    writer: Option<Stamped>,
    cursor: PlantState,
    prepared: Option<Prepared>,
    origin: Option<Mark>,
    committed: seq<string>)

  datatype Action =
    | Stamp(line: string)
    | Flush(count: nat)
    | NextDay(days: nat)
    | Poll
    | PublishFails
    | PublishSucceeds
    | CommitFails
    | CommitSucceeds
    | Crash

  predicate Enabled(w: World, a: Action) {
    match a
    case Stamp(_) => w.writer.None?
    case Flush(count) => w.writer.Some? && count <= |w.writer.value.line|
    case NextDay(days) => days >= 1
    case Poll => w.prepared.None? && Prepare(w.files, w.today, w.cursor).Ok?
    case PublishFails => w.prepared.Some? && !w.prepared.value.published
    case PublishSucceeds => w.prepared.Some? && !w.prepared.value.published
    case CommitFails => w.prepared.Some? && w.prepared.value.published
    case CommitSucceeds => w.prepared.Some? && w.prepared.value.published
    case Crash => true
  }

  function Step(w: World, a: Action): World
    requires Enabled(w, a)
  {
    match a
    case Stamp(line) => w.(writer := Some(Stamped(w.today, line)))
    case Flush(count) =>
      w.(files := Append(w.files, w.writer.value.day, w.writer.value.line[..count]), writer := None)
    case NextDay(days) => w.(today := w.today + days)
    case Poll =>
      w.(prepared := Some(Prepared(Prepare(w.files, w.today, w.cursor).value, StartsOver(w.cursor, w.today), false)))
    case PublishFails => w.(prepared := None)
    case PublishSucceeds => w.(prepared := Some(w.prepared.value.(published := true)))
    case CommitFails => w.(prepared := None)
    case CommitSucceeds =>
      var read := w.prepared.value.read;
      w.(cursor := read.next, prepared := None, committed := w.committed + [Offered(read)],
         origin := if w.origin.None? && read.next.date.On? && read.next.pos >= 0 then Some(ToMark(read.next))
                   else w.origin)
    case Crash => w.(writer := None, prepared := None)
  }

  /** The current cursor lies in the log, not before the first one. */
  ghost predicate Placed(w: World) {
    w.origin.Some? ==>
      && GoodCursor(w.files, w.today, w.cursor)
      && Within(w.files, w.origin.value)
      && Before(w.origin.value, ToMark(w.cursor))
  }

  /** The log between the first cursor and the current one. */
  ghost function Logged(w: World): string
    requires Placed(w) && w.origin.Some?
  {
    Slice(w.files, w.origin.value, ToMark(w.cursor))
  }

  /** The committed texts join to the log between the first cursor and the current one. */
  ghost predicate ExactlyOnce(w: World) {
    w.origin.Some? ==> Placed(w) && Flatten(w.committed) == Logged(w)
  }

  /** What was read still stands behind the cursor, and the next cursor is right behind it
      or at the start of the next day. */
  predicate Follows(files: Files, s: PlantState, read: Read)
    requires s.date.On? && s.pos >= 0
  {
    var text, end := Contents(files, s.date.day), s.pos + |Offered(read)|;
    && end <= |text| && text[s.pos..end] == Offered(read)
    && (read.next == PlantState(s.date, end) || read.next == PlantState(On(s.date.day + 1), 0))
  }

  ghost predicate PreparedFits(w: World) {
    w.prepared.Some? ==>
      var p := w.prepared.value;
      && GoodCursor(w.files, w.today, p.read.next)
      && (p.startsOver ==> Offered(p.read) == "")
      && (w.origin.None? ==> p.startsOver)
      && (w.origin.Some? ==> GoodCursor(w.files, w.today, w.cursor) && Before(ToMark(w.cursor), ToMark(p.read.next)))
      && (!p.startsOver ==> Follows(w.files, w.cursor, p.read))
  }

  /** Never more is delivered than was logged, and as much only if it is the same text. */
  ghost predicate Balanced(w: World)
    requires Placed(w)
  {
    w.origin.Some? ==>
      && |Flatten(w.committed)| <= |Logged(w)|
      && (|Flatten(w.committed)| == |Logged(w)| ==> Flatten(w.committed) == Logged(w))
  }

  ghost predicate Inv(w: World) {
    && Placed(w)
    && PreparedFits(w)
    && Balanced(w)
    && (w.origin.None? ==> w.cursor.date.Unset? && w.committed == [])
    && (w.writer.Some? ==> w.writer.value.day <= w.today)
  }

  /** The steps that lose text: writing to a day the cursor has left; committing across
      midnight when the old day's file has grown since it was read; and committing a start
      over past a stretch of log that is not empty. */
  ghost predicate Lossy(w: World, a: Action)
    requires Inv(w) && Enabled(w, a)
  {
    w.origin.Some?
    && match a
       case Flush(count) => count > 0 && w.origin.value.day <= w.writer.value.day < w.cursor.date.day
       case CommitSucceeds =>
         var read := w.prepared.value.read;
         if w.prepared.value.startsOver then Slice(w.files, ToMark(w.cursor), ToMark(read.next)) != ""
         else
           read.next.date.day > w.cursor.date.day
           && |Contents(w.files, w.cursor.date.day)| > w.cursor.pos + |Offered(read)|
       case _ => false
  }

  /** A first poll whose cursor is unset, or any cursor inside the log. */
  function Initial(files: Files, today: int, cursor: PlantState): World {
    var origin := if cursor.date.On? && cursor.pos >= 0 then Some(ToMark(cursor)) else None;
    World(files, today, None, cursor, None, origin, [])
  }

  lemma InitialInv(files: Files, today: int, cursor: PlantState)
    requires cursor.date.Unset? || GoodCursor(files, today, cursor)
    ensures Inv(Initial(files, today, cursor)) && ExactlyOnce(Initial(files, today, cursor))
  {
    if cursor.date.On? {
      EmptySlice(files, ToMark(cursor));
    }
  }

  lemma EmptySlice(files: Files, m: Mark)
    requires Within(files, m)
    ensures Slice(files, m, m) == ""
  {
  }

  // What each step does to the account ---------------------------------------------------

  /** A write lengthens the accounted log exactly when it adds text to a day the cursor
      has left. */
  lemma LateWriteIff(w: World, count: nat)
    requires Placed(w) && w.origin.Some? && Enabled(w, Flush(count)) && w.writer.value.day <= w.today
    ensures Placed(Step(w, Flush(count)))
    ensures var late := w.origin.value.day <= w.writer.value.day < w.cursor.date.day;
            && |Logged(Step(w, Flush(count)))| == |Logged(w)| + (if late then count else 0)
            && (!late || count == 0 ==> Logged(Step(w, Flush(count))) == Logged(w))
  {
    var day, line := w.writer.value.day, w.writer.value.line[..count];
    var a, b := w.origin.value, ToMark(w.cursor);
    if a.day <= day < b.day {
      SliceGrows(w.files, a, b, day, line);
      if count == 0 {
        assert Contents(w.files, day) + line == Contents(w.files, day);
        SameContents(w.files, Append(w.files, day, line), a, b);
      }
    } else {
      SliceStable(w.files, a, b, day, line);
    }
  }

  lemma {:induction false} SameContents(files: Files, files': Files, a: Mark, b: Mark)
    requires Within(files, a) && Within(files, b) && Before(a, b)
    requires forall day :: Contents(files, day) == Contents(files', day)
    ensures Within(files', a) && Within(files', b) && Slice(files, a, b) == Slice(files', a, b)
    decreases b.day - a.day
  {
    if a.day < b.day {
      SameContents(files, files', Mark(a.day + 1, 0), b);
    }
  }

  lemma FollowsGrown(files: Files, s: PlantState, read: Read, day: int, line: string)
    requires s.date.On? && s.pos >= 0 && Follows(files, s, read)
    ensures Follows(Append(files, day, line), s, read)
  {
    var text, end := Contents(files, s.date.day), s.pos + |Offered(read)|;
    var text' := Contents(Append(files, day, line), s.date.day);
    assert text <= text';
    assert text'[s.pos..end] == text[s.pos..end];
  }

  lemma FlushAccounts(w: World, count: nat)
    requires Inv(w) && Enabled(w, Flush(count))
    ensures Inv(Step(w, Flush(count)))
    ensures ExactlyOnce(Step(w, Flush(count))) <==> ExactlyOnce(w) && !Lossy(w, Flush(count))
  {
    if w.origin.Some? {
      LateWriteIff(w, count);
    }
    if w.prepared.Some? && !w.prepared.value.startsOver {
      FollowsGrown(w.files, w.cursor, w.prepared.value.read, w.writer.value.day, w.writer.value.line[..count]);
    }
  }

  /** A poll that does not start over reads what follows the cursor. */
  lemma PollFollows(files: Files, today: int, s: PlantState)
    requires GoodCursor(files, today, s) && s.date.day >= today - 1
    ensures Prepare(files, today, s).Ok? && Follows(files, s, Prepare(files, today, s).value)
  {
    var text := Contents(files, s.date.day);
    assert text[s.pos..] == text[s.pos..|text|];
    if s.pos == |text| {
      assert text[s.pos..] == "";
    }
  }

  lemma PollKeeps(w: World)
    requires Inv(w) && Enabled(w, Poll)
    ensures Inv(Step(w, Poll))
  {
    if !StartsOver(w.cursor, w.today) {
      PollOffersSlice(w.files, w.today, w.cursor);
      PollFollows(w.files, w.today, w.cursor);
    }
  }

  /** What a commit that does not start over passes: the text read, and more exactly when
      it leaves a day whose file has grown. */
  lemma NextStretch(files: Files, s: PlantState, read: Read)
    requires s.date.On? && s.pos >= 0 && Follows(files, s, read)
    ensures Within(files, ToMark(s)) && read.next.date.On? && read.next.pos >= 0
    ensures Within(files, ToMark(read.next)) && Before(ToMark(s), ToMark(read.next))
    ensures Offered(read) <= Slice(files, ToMark(s), ToMark(read.next))
    ensures |Offered(read)| != |Slice(files, ToMark(s), ToMark(read.next))| <==>
              read.next.date.day > s.date.day && |Contents(files, s.date.day)| > s.pos + |Offered(read)|
  {
    var text, from, end := Contents(files, s.date.day), ToMark(s), s.pos + |Offered(read)|;
    if read.next == PlantState(s.date, end) {
      PartOfDay(files, from, end);
    } else {
      RestOfDay(files, from);
      assert text[from.pos..] == Offered(read) + text[end..];
    }
  }

  lemma PartOfDay(files: Files, m: Mark, end: nat)
    requires m.pos <= end <= |Contents(files, m.day)|
    ensures Slice(files, m, Mark(m.day, end)) == Contents(files, m.day)[m.pos..end]
  {
  }

  lemma RestOfDay(files: Files, m: Mark)
    requires Within(files, m)
    ensures Slice(files, m, Mark(m.day + 1, 0)) == Contents(files, m.day)[m.pos..]
  {
    EmptySlice(files, Mark(m.day + 1, 0));
    assert Contents(files, m.day)[m.pos..] + "" == Contents(files, m.day)[m.pos..];
  }

  /** The account after adding one text over one stretch of log. */
  lemma Ledger(delivered: string, logged: string, text: string, stretch: string)
    requires |delivered| <= |logged| && (|delivered| == |logged| ==> delivered == logged)
    requires text <= stretch
    ensures |delivered + text| <= |logged + stretch|
    ensures |delivered + text| == |logged + stretch| ==> delivered + text == logged + stretch
    ensures delivered + text == logged + stretch <==> delivered == logged && |text| == |stretch|
  {
    if |text| == |stretch| {
      assert text == stretch;
    }
    if delivered + text == logged + stretch {
      assert |delivered| == |logged| && |text| == |stretch|;
    }
  }

  lemma FirstCommit(w: World)
    requires Inv(w) && Enabled(w, CommitSucceeds) && w.origin.None?
    ensures Inv(Step(w, CommitSucceeds)) && ExactlyOnce(Step(w, CommitSucceeds))
  {
    var read := w.prepared.value.read;
    EmptySlice(w.files, ToMark(read.next));
    FlattenSnoc(w.committed, Offered(read));
    assert Flatten(w.committed + [Offered(read)]) == "";
  }

  /** The stretch of log a commit passes begins with the text delivered, and is longer
      exactly when the commit is lossy. */
  lemma Stretch(w: World)
    requires Inv(w) && Enabled(w, CommitSucceeds) && w.origin.Some?
    ensures var read := w.prepared.value.read;
            var stretch := Slice(w.files, ToMark(w.cursor), ToMark(read.next));
            Offered(read) <= stretch && (Lossy(w, CommitSucceeds) <==> |Offered(read)| != |stretch|)
  {
    if !w.prepared.value.startsOver {
      NextStretch(w.files, w.cursor, w.prepared.value.read);
    }
  }

  /** A commit adds one text to the account and one stretch to the log it stands for. */
  lemma CommitExtends(w: World)
    requires Inv(w) && Enabled(w, CommitSucceeds) && w.origin.Some?
    ensures var w', text := Step(w, CommitSucceeds), Offered(w.prepared.value.read);
            && Placed(w') && w'.origin.Some?
            && Flatten(w'.committed) == Flatten(w.committed) + text
            && Logged(w') == Logged(w) + Slice(w.files, ToMark(w.cursor), ToMark(w.prepared.value.read.next))
  {
    SliceJoin(w.files, w.origin.value, ToMark(w.cursor), ToMark(w.prepared.value.read.next));
    FlattenSnoc(w.committed, Offered(w.prepared.value.read));
  }

  lemma CommitAccounts(w: World)
    requires Inv(w) && Enabled(w, CommitSucceeds) && w.origin.Some?
    ensures Inv(Step(w, CommitSucceeds))
    ensures ExactlyOnce(Step(w, CommitSucceeds)) <==> ExactlyOnce(w) && !Lossy(w, CommitSucceeds)
  {
    var read := w.prepared.value.read;
    Stretch(w);
    CommitExtends(w);
    Ledger(Flatten(w.committed), Logged(w), Offered(read), Slice(w.files, ToMark(w.cursor), ToMark(read.next)));
  }

  /** No step of any kind breaks the account but the lossy ones, and what a lossy step
      breaks no step repairs. */
  lemma StepAccounts(w: World, a: Action)
    requires Inv(w) && Enabled(w, a)
    ensures Inv(Step(w, a))
    ensures ExactlyOnce(Step(w, a)) <==> ExactlyOnce(w) && !Lossy(w, a)
  {
    match a
    case Flush(count) => FlushAccounts(w, count);
    case Poll => PollKeeps(w);
    case CommitSucceeds =>
      if w.origin.None? {
        FirstCommit(w);
      } else {
        CommitAccounts(w);
      }
    case Stamp(_) =>
    case NextDay(_) =>
    case PublishFails =>
    case PublishSucceeds =>
    case CommitFails =>
    case Crash =>
  }

  // Whole runs -------------------------------------------------------------------------

  predicate Runs(w: World, actions: seq<Action>)
    decreases |actions|, 0
  {
    actions == []
    || (Runs(w, actions[..|actions| - 1]) && Enabled(After(w, actions[..|actions| - 1]), actions[|actions| - 1]))
  }

  function After(w: World, actions: seq<Action>): World
    requires Runs(w, actions)
    decreases |actions|, 1
  {
    if actions == [] then w else Step(After(w, actions[..|actions| - 1]), actions[|actions| - 1])
  }

  lemma {:induction false} RunKeeps(w: World, actions: seq<Action>)
    requires Inv(w) && Runs(w, actions)
    ensures Inv(After(w, actions))
    decreases |actions|
  {
    if actions != [] {
      RunKeeps(w, actions[..|actions| - 1]);
      StepAccounts(After(w, actions[..|actions| - 1]), actions[|actions| - 1]);
    }
  }

  /** Some step of the run is lossy. */
  ghost predicate LosesText(w: World, actions: seq<Action>)
    requires Inv(w) && Runs(w, actions)
    decreases |actions|
  {
    actions != []
    && var before := actions[..|actions| - 1];
       RunKeeps(w, before);
       LosesText(w, before) || Lossy(After(w, before), actions[|actions| - 1])
  }

  /** In every run of appends, day changes, polls, failed publishes, failed commits and
      crashes, the committed texts join to the log between the first cursor and the
      current one, once each, if and only if no step of the run was lossy. */
  lemma {:induction false} CommittedExactlyOnceIff(w: World, actions: seq<Action>)
    requires Inv(w) && ExactlyOnce(w) && Runs(w, actions)
    ensures ExactlyOnce(After(w, actions)) <==> !LosesText(w, actions)
    decreases |actions|
  {
    if actions != [] {
      var before := actions[..|actions| - 1];
      RunKeeps(w, before);
      CommittedExactlyOnceIff(w, before);
      StepAccounts(After(w, before), actions[|actions| - 1]);
    }
  }

  /** The first cursor stays the first, and no committed text is taken back. */
  lemma {:induction false} HistoryStands(w: World, actions: seq<Action>)
    requires Runs(w, actions)
    ensures w.origin.Some? ==> After(w, actions).origin == w.origin
    ensures w.committed <= After(w, actions).committed
    decreases |actions|
  {
    if actions != [] {
      HistoryStands(w, actions[..|actions| - 1]);
    }
  }

  /** So from any cursor inside the log, a run without a lossy step delivers exactly the
      log from that cursor to the last one. */
  lemma DeliversFromFirstCursor(files: Files, today: int, cursor: PlantState, actions: seq<Action>)
    requires GoodCursor(files, today, cursor) && Inv(Initial(files, today, cursor))
    requires Runs(Initial(files, today, cursor), actions) && !LosesText(Initial(files, today, cursor), actions)
    ensures var end := After(Initial(files, today, cursor), actions);
            && GoodCursor(end.files, end.today, end.cursor) && Within(end.files, ToMark(cursor))
            && Before(ToMark(cursor), ToMark(end.cursor))
            && Flatten(end.committed) == Slice(end.files, ToMark(cursor), ToMark(end.cursor))
  {
    var start := Initial(files, today, cursor);
    InitialInv(files, today, cursor);
    CommittedExactlyOnceIff(start, actions);
    HistoryStands(start, actions);
  }

  // When nothing is lost -------------------------------------------------------------------

  /** A poll that crosses midnight while a line of the old day is stamped but not written. */
  predicate Hazard(w: World, a: Action) {
    && a.Poll? && w.writer.Some? && w.origin.Some? && w.cursor.date.On?
    && w.cursor.date.day == w.today - 1 && w.writer.value.day == w.today - 1
  }

  /** A poll that finds a cursor older than yesterday. */
  predicate Stale(w: World, a: Action) {
    a.Poll? && w.origin.Some? && StartsOver(w.cursor, w.today)
  }

  /** No poll of the run is stale or crosses midnight over an unwritten line. */
  predicate Careful(w: World, actions: seq<Action>)
    requires Runs(w, actions)
    decreases |actions|
  {
    actions != [] ==>
      var before := actions[..|actions| - 1];
      Careful(w, before)
      && !Hazard(After(w, before), actions[|actions| - 1]) && !Stale(After(w, before), actions[|actions| - 1])
  }

  /** The day is accounted for and lies before another. */
  predicate Left(w: World, day: int, next: int) {
    w.origin.Some? && w.origin.value.day <= day < next
  }

  /** The line waiting to be written belongs to no day already left, or about to be; a
      prepared poll has read its day to the end if it leaves it. */
  ghost predicate Ahead(w: World) {
    w.origin.Some? && w.cursor.date.On? ==>
      && (w.writer.Some? ==> !Left(w, w.writer.value.day, w.cursor.date.day))
      && (w.prepared.Some? ==>
            var p := w.prepared.value;
            && !p.startsOver && p.read.next.date.On?
            && (w.writer.Some? ==> !Left(w, w.writer.value.day, p.read.next.date.day))
            && (p.read.next.date.day > w.cursor.date.day ==>
                  |Contents(w.files, w.cursor.date.day)| == w.cursor.pos + |Offered(p.read)|))
  }

  lemma CarefulPoll(w: World)
    requires Inv(w) && Ahead(w) && Enabled(w, Poll) && !Hazard(w, Poll) && !Stale(w, Poll)
    ensures Ahead(Step(w, Poll))
  {
    if w.origin.Some? {
      PollOffersSlice(w.files, w.today, w.cursor);
      PollFollows(w.files, w.today, w.cursor);
    }
  }

  lemma CarefulCommit(w: World)
    requires Inv(w) && Ahead(w) && Enabled(w, CommitSucceeds)
    ensures !Lossy(w, CommitSucceeds) && Ahead(Step(w, CommitSucceeds))
  {
  }

  lemma CarefulFlush(w: World, count: nat)
    requires Inv(w) && Ahead(w) && Enabled(w, Flush(count))
    ensures !Lossy(w, Flush(count)) && Ahead(Step(w, Flush(count)))
  {
  }

  lemma CarefulStep(w: World, a: Action)
    requires Inv(w) && Ahead(w) && Enabled(w, a) && !Hazard(w, a) && !Stale(w, a)
    ensures !Lossy(w, a) && Ahead(Step(w, a))
  {
    match a
    case Poll => CarefulPoll(w);
    case Flush(count) => CarefulFlush(w, count);
    case CommitSucceeds => CarefulCommit(w);
    case Stamp(_) =>
    case NextDay(_) =>
    case PublishFails =>
    case PublishSucceeds =>
    case CommitFails =>
    case Crash =>
  }

  /** If every poll comes within a day of the last commit and none crosses midnight over an
      unwritten line, nothing is lost. */
  lemma {:induction false} CarefulLosesNothing(w: World, actions: seq<Action>)
    requires Inv(w) && Ahead(w) && Runs(w, actions) && Careful(w, actions)
    ensures Ahead(After(w, actions)) && !LosesText(w, actions)
    decreases |actions|
  {
    if actions != [] {
      var before := actions[..|actions| - 1];
      RunKeeps(w, before);
      CarefulLosesNothing(w, before);
      CarefulStep(After(w, before), actions[|actions| - 1]);
    }
  }

  // How text is lost -----------------------------------------------------------------------

  /** One more step of a run. */
  lemma Extend(start: World, actions: seq<Action>, w: World, a: Action) returns (more: seq<Action>)
    requires Runs(start, actions) && w == After(start, actions) && Enabled(w, a)
    ensures more == actions + [a] && Runs(start, more) && After(start, more) == Step(w, a)
  {
    more := actions + [a];
    assert more[..|actions|] == actions;
  }

  /** One text of one character is in the log, an empty one was delivered. */
  ghost predicate Undelivered(w: World) {
    && w.files == map[0 := "x"] && w.origin == Some(Mark(0, 0)) && w.cursor.date.On? && w.cursor.date.day >= 1
    && w.committed == [""]
  }

  lemma UndeliveredText(w: World)
    requires Undelivered(w)
    ensures Flatten(w.committed) == "" && !ExactlyOnce(w)
  {
    FlattenSnoc([], "");
    assert w.committed == [] + [""];
    if Placed(w) {
      var rest := Slice(w.files, Mark(1, 0), ToMark(w.cursor));
      assert Logged(w) == Contents(w.files, 0)[0..] + rest;
    }
  }

  /** Publish and commit what is prepared. */
  lemma Finish(start: World, actions: seq<Action>, w: World) returns (more: seq<Action>, committed: World)
    requires Runs(start, actions) && w == After(start, actions) && w.prepared.Some? && !w.prepared.value.published
    ensures Runs(start, more) && committed == After(start, more)
    ensures committed == Step(Step(w, PublishSucceeds), CommitSucceeds)
  {
    var published := Step(w, PublishSucceeds);
    more := Extend(start, actions, w, PublishSucceeds);
    more := Extend(start, more, published, CommitSucceeds);
    committed := Step(published, CommitSucceeds);
  }

  /** A line is stamped, midnight passes, and a poll finds it not yet written. */
  lemma PolledTooEarly(start: World) returns (actions: seq<Action>, w: World)
    requires start == Initial(map[0 := ""], 0, PlantState(On(0), 0))
    ensures Runs(start, actions) && w == After(start, actions)
    ensures w == World(map[0 := ""], 1, Some(Stamped(0, "x")), PlantState(On(0), 0),
                       Some(Prepared(Read(Some(""), PlantState(On(1), 0)), false, false)), Some(Mark(0, 0)), [])
  {
    var w1 := Step(start, Stamp("x"));
    var w2 := Step(w1, NextDay(1));
    actions := Extend(start, [], start, Stamp("x"));
    actions := Extend(start, actions, w1, NextDay(1));
    actions := Extend(start, actions, w2, Poll);
    w := Step(w2, Poll);
    assert Prepare(w2.files, 1, w2.cursor) == Ok(Read(Some(""), PlantState(On(1), 0)));
  }

  /** A line stamped before midnight and written after the first poll of the new day has
      been committed is never delivered. */
  lemma MidnightRace(start: World) returns (race: seq<Action>)
    requires start == Initial(map[0 := ""], 0, PlantState(On(0), 0))
    ensures Inv(start) && ExactlyOnce(start) && Runs(start, race)
    ensures Undelivered(After(start, race)) && !ExactlyOnce(After(start, race))
  {
    InitialInv(map[0 := ""], 0, PlantState(On(0), 0));
    var w, committed;
    race, w := PolledTooEarly(start);
    race, committed := Finish(start, race, w);
    race := Extend(start, race, committed, Flush(1));
    assert "" + "x"[..1] == "x";
    UndeliveredText(Step(committed, Flush(1)));
  }

  /** Nor is one written between that poll and its commit. */
  lemma LateCommitLosesText(start: World) returns (run: seq<Action>)
    requires start == Initial(map[0 := ""], 0, PlantState(On(0), 0))
    ensures Inv(start) && ExactlyOnce(start) && Runs(start, run)
    ensures Undelivered(After(start, run)) && !ExactlyOnce(After(start, run))
  {
    InitialInv(map[0 := ""], 0, PlantState(On(0), 0));
    var w, committed;
    run, w := PolledTooEarly(start);
    run := Extend(start, run, w, Flush(1));
    assert "" + "x"[..1] == "x";
    run, committed := Finish(start, run, Step(w, Flush(1)));
    UndeliveredText(committed);
  }

  lemma LoggedEarly(start: World) returns (actions: seq<Action>, w: World)
    requires start == Initial(map[0 := ""], 0, PlantState(On(0), 0))
    ensures Runs(start, actions) && w == After(start, actions)
    ensures w == World(map[0 := "x"], 2, None, PlantState(On(0), 0), None, Some(Mark(0, 0)), [])
  {
    var w1 := Step(start, Stamp("x"));
    var w2 := Step(w1, Flush(1));
    assert "" + "x"[..1] == "x";
    actions := Extend(start, [], start, Stamp("x"));
    actions := Extend(start, actions, w1, Flush(1));
    actions := Extend(start, actions, w2, NextDay(2));
    w := Step(w2, NextDay(2));
  }

  /** Nor is a line logged while no poll came for two days: the next poll starts over
      behind it. */
  lemma StartOverLosesText(start: World) returns (run: seq<Action>)
    requires start == Initial(map[0 := ""], 0, PlantState(On(0), 0))
    ensures Inv(start) && ExactlyOnce(start) && Runs(start, run)
    ensures Undelivered(After(start, run)) && !ExactlyOnce(After(start, run))
  {
    InitialInv(map[0 := ""], 0, PlantState(On(0), 0));
    var w;
    run, w := LoggedEarly(start);
    run := Extend(start, run, w, Poll);
    var w5;
    run, w5 := Finish(start, run, Step(w, Poll));
    UndeliveredText(w5);
  }

  /** In general: a poll from a cursor older than yesterday delivers nothing, moves the
      cursor behind the day's file, and loses text exactly if any was logged in between. */
  lemma StartOverSkips(start: World, cursor: PlantState) returns (run: seq<Action>)
    requires start == Initial(start.files, start.today, cursor)
    requires GoodCursor(start.files, start.today, cursor) && cursor.date.day < start.today - 1
    ensures run == [Poll, PublishSucceeds, CommitSucceeds] && Runs(start, run)
    ensures var end := After(start, run);
            && end.cursor == PlantState(On(start.today), |Contents(start.files, start.today)|)
            && end.files == start.files && end.committed == [""]
            && Within(start.files, ToMark(end.cursor))
            && (ExactlyOnce(end) <==> Slice(start.files, ToMark(cursor), ToMark(end.cursor)) == "")
  {
    InitialInv(start.files, start.today, cursor);
    StartsOverAtEnd(start.files, start.today, cursor);
    var polled, published := Step(start, Poll), Step(Step(start, Poll), PublishSucceeds);
    StepAccounts(start, Poll);
    StepAccounts(polled, PublishSucceeds);
    StepAccounts(published, CommitSucceeds);
    run := Extend(start, [], start, Poll);
    run := Extend(start, run, polled, PublishSucceeds);
    run := Extend(start, run, published, CommitSucceeds);
  }

  // Nothing uncommitted is forgotten ------------------------------------------------------

  ghost predicate Grown(files: Files, files': Files) {
    forall day :: Contents(files, day) <= Contents(files', day)
  }

  /** The text of a poll that was not committed is offered again, as a prefix of what the
      next poll offers, as long as the cursor is not older than yesterday by then. */
  lemma UncommittedOfferedAgain(files: Files, today: int, files': Files, today': int, s: PlantState)
    requires GoodCursor(files, today, s) && s.date.day >= today - 1
    requires Grown(files, files') && today <= today'
    ensures Prepare(files, today, s).Ok? && Prepare(files', today', s).Ok?
    ensures s.date.day >= today' - 1 ==>
              Offered(Prepare(files, today, s).value) <= Offered(Prepare(files', today', s).value)
    ensures s.date.day < today' - 1 ==> Offered(Prepare(files', today', s).value) == ""
  {
    var day := s.date.day;
    assert Contents(files, day) <= Contents(files', day);
  }

  /** Between polls, whatever fails or crashes, the log only grows and only a successful
      commit moves the cursor. */
  lemma StepGrows(w: World, a: Action)
    requires Enabled(w, a)
    ensures Grown(w.files, Step(w, a).files) && w.today <= Step(w, a).today
    ensures !a.CommitSucceeds? ==> Step(w, a).cursor == w.cursor
  {
  }

  lemma {:induction false} RunGrows(w: World, actions: seq<Action>)
    requires Runs(w, actions)
    ensures Grown(w.files, After(w, actions).files) && w.today <= After(w, actions).today
    decreases |actions|
  {
    if actions != [] {
      RunGrows(w, actions[..|actions| - 1]);
      StepGrows(After(w, actions[..|actions| - 1]), actions[|actions| - 1]);
    }
  }

  /** Over any run only a successful commit moves the cursor. */
  lemma {:induction false} CursorWaits(w: World, actions: seq<Action>)
    requires Runs(w, actions) && forall a | a in actions :: !a.CommitSucceeds?
    ensures After(w, actions).cursor == w.cursor
    decreases |actions|
  {
    if actions != [] {
      CursorWaits(w, actions[..|actions| - 1]);
      StepGrows(After(w, actions[..|actions| - 1]), actions[|actions| - 1]);
    }
  }

  /** So however often polls, publishes and commits fail and the process crashes, what a
      poll offered at the start of such a run is a prefix of what one offers at its end. */
  lemma OfferedAgain(w: World, actions: seq<Action>)
    requires GoodCursor(w.files, w.today, w.cursor) && w.cursor.date.day >= w.today - 1
    requires Runs(w, actions) && forall a | a in actions :: !a.CommitSucceeds?
    ensures var first, later := Prepare(w.files, w.today, w.cursor), After(w, actions);
            var again := Prepare(later.files, later.today, later.cursor);
            && first.Ok? && again.Ok?
            && (w.cursor.date.day >= later.today - 1 ==> Offered(first.value) <= Offered(again.value))
            && (w.cursor.date.day < later.today - 1 ==> Offered(again.value) == "")
  {
    var later := After(w, actions);
    RunGrows(w, actions);
    CursorWaits(w, actions);
    UncommittedOfferedAgain(w.files, w.today, later.files, later.today, w.cursor);
  }

  // A crash that takes the cursor back ----------------------------------------------------

  /** The cursor of any earlier moment of a run still lies in the log, so that the system
      may be started from it. */
  lemma EarlierCursorStands(w: World, actions: seq<Action>)
    requires Inv(w) && w.origin.Some? && Runs(w, actions)
    ensures var later := After(w, actions);
            && GoodCursor(later.files, later.today, w.cursor)
            && Inv(Initial(later.files, later.today, w.cursor))
            && ExactlyOnce(Initial(later.files, later.today, w.cursor))
  {
    var later := After(w, actions);
    RunGrows(w, actions);
    assert Contents(w.files, w.cursor.date.day) <= Contents(later.files, w.cursor.date.day);
    InitialInv(later.files, later.today, w.cursor);
  }

  /** When a crash puts the cursor of an earlier moment back, a run without a lossy step
      delivers exactly the log from that cursor on: what had been committed since then a
      second time, and nothing is skipped. */
  lemma RevertedCursorRepeats(w: World, actions: seq<Action>, again: World, rest: seq<Action>)
    requires Inv(w) && w.origin.Some? && Runs(w, actions)
    requires again == Initial(After(w, actions).files, After(w, actions).today, w.cursor)
    requires Inv(again) && Runs(again, rest) && !LosesText(again, rest)
    ensures var end := After(again, rest);
            && GoodCursor(end.files, end.today, end.cursor) && Within(end.files, ToMark(w.cursor))
            && Before(ToMark(w.cursor), ToMark(end.cursor))
            && Flatten(end.committed) == Slice(end.files, ToMark(w.cursor), ToMark(end.cursor))
  {
    var later := After(w, actions);
    EarlierCursorStands(w, actions);
    DeliversFromFirstCursor(later.files, later.today, w.cursor, rest);
  }

  /** When a crash puts back the zero value instead, the next poll starts over: whatever
      the cursor had not reached by then is skipped. */
  lemma ForgottenCursorSkips(start: World, cursor: PlantState) returns (run: seq<Action>)
    requires start == Initial(start.files, start.today, PlantState(Unset, 0))
    requires GoodCursor(start.files, start.today, cursor)
    ensures Inv(start) && Runs(start, run)
    ensures var end := After(start, run);
            && end.files == start.files && end.committed == [""] && end.origin.Some?
            && end.cursor == PlantState(On(start.today), |Contents(start.files, start.today)|)
            && Before(ToMark(cursor), end.origin.value)
  {
    InitialInv(start.files, start.today, PlantState(Unset, 0));
    var end;
    run := Extend(start, [], start, Poll);
    run, end := Finish(start, run, Step(start, Poll));
  }

  // The writer ------------------------------------------------------------------------------

  /** The file system below the writer, and how often a call to it went wrong. */
  class Disk {
    ghost var failures: nat

    constructor ()
      ensures failures == 0
    {
      failures := 0;
    }

    /** Closing or opening a file. */
    method Call() returns (ok: bool)
      modifies this
      ensures failures == old(failures) + if ok then 0 else 1
    {
      ok := *;
      failures := failures + if ok then 0 else 1;
    }

    /** How much of a line is taken. */
    method Accept(size: nat) returns (count: nat)
      modifies this
      ensures count <= size && failures == old(failures) + if count == size then 0 else 1
    {
      count :| 0 <= count <= size;
      failures := failures + if count == size then 0 else 1;
    }
  }

  /** The daily file writer: one open file at a time, always the file of the line's day. */
  class DailyFileState {
    const disk: Disk
    var files: Files
    var current: Option<int>

    predicate Valid()
      reads this
    {
      current.Some? ==> current.value in files
    }

    constructor (disk: Disk, files: Files)
      ensures Valid() && current.None? && this.files == files && this.disk == disk
    {
      this.disk, this.files, current := disk, files, None;
    }

    /** The file of the day becomes the one open file. If the previous file cannot be
        closed it is kept; if the new one cannot be opened there is none. */
    method OpenDay(day: int) returns (ok: bool)
      requires Valid()
      modifies this, disk
      ensures Valid() && (ok <==> disk.failures == old(disk.failures)) && old(disk.failures) <= disk.failures
      ensures ok ==> current == Some(day) && files == Append(old(files), day, "")
      ensures !ok ==> files == old(files) && old(current) != Some(day) && (current == old(current) || current.None?)
    {
      if current == Some(day) {
        AppendNothing(files, day);
        return true;
      }
      if current.Some? {
        var closed := disk.Call();
        if !closed {
          return false;
        }
        current := None;
      }
      var ready := disk.Call();
      if !ready {
        return false;
      }
      files := Append(files, day, "");
      current := Some(day);
      return true;
    }

    /** Each call is one Flush step: a prefix of the line goes to the end of the file of
        its day, the whole line unless an error is reported, and nothing else changes. */
    method Write(day: int, line: string) returns (ok: bool, written: nat)
      requires Valid()
      modifies this, disk
      ensures Valid() && (ok <==> disk.failures == old(disk.failures))
      ensures written <= |line| && (ok ==> written == |line|)
      ensures files == old(files) || files == Append(old(files), day, line[..written])
      ensures files - {day} == old(files) - {day}
      ensures files != old(files) ==>
                day in files
                && files[day] == (if day in old(files) then old(files[day]) else "") + line[..written]
      ensures ok ==> current == Some(day) && files == Append(old(files), day, line)
    {
      written := 0;
      ok := OpenDay(day);
      if !ok {
        return;
      }
      written := disk.Accept(|line|);
      AppendTwice(old(files), day, "", line[..written]);
      AppendTold(old(files), day, line[..written]);
      assert "" + line[..written] == line[..written];
      assert line[..|line|] == line;
      files := Append(files, day, line[..written]);
      ok := written == |line|;
    }
  }

  lemma AppendNothing(files: Files, day: int)
    requires day in files
    ensures Append(files, day, "") == files
  {
    assert files[day] + "" == files[day];
  }

  lemma AppendTwice(files: Files, day: int, first: string, second: string)
    ensures Append(Append(files, day, first), day, second) == Append(files, day, first + second)
  {
    Assoc(Contents(files, day), first, second);
  }
}
