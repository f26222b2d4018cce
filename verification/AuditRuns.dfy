/** The audit log over every run of openings, closings and appends, by any number
    of handles on one file, each append succeeding or failing. */
module AuditRuns {
  import opened Prelude
  import opened Screening
  import opened Audit

  type Handle = nat

  /** The file, and what each open handle remembers of its end. */
  datatype World = World(file: Disk, handles: map<Handle, ChainState>)

  datatype Step =
    | Opening(handle: Handle)
    | Closing(handle: Handle)
    | Recording(handle: Handle, event: Event, io: Append)

  function Next(hash: Hasher, format: ConstraintValue -> string, w: World, s: Step): World {
    match s
    case Opening(h) =>
      var state := Verify(hash, w.file.lines);
      if state.Ok? then w.(handles := w.handles[h := state.value]) else w
    case Closing(h) => w.(handles := w.handles - {h})
    case Recording(h, e, io) =>
      if h !in w.handles then w
      else World(FileAfter(hash, format, w.file, w.handles[h], e, io),
                 w.handles[h := StateAfter(hash, format, w.handles[h], e, io)])
  }

  function Run(hash: Hasher, format: ConstraintValue -> string, w: World, steps: seq<Step>): World
    decreases |steps|
  {
    if steps == [] then w else Run(hash, format, Next(hash, format, w, steps[0]), steps[1..])
  }

  // ---------------------------------------------------------------------
  // When the file survives.

  /** Read off the steps alone, from the length of the file, whether it ends in a
      newline, and what each handle takes its length for: no line is written in part or
      onto one that was not ended, and every line is written by a handle that has seen
      all the lines before it. */
  predicate Disciplined(length: nat, ended: bool, seen: map<Handle, nat>, steps: seq<Step>)
    decreases |steps|
  {
    steps != [] ==>
      var rest := steps[1..];
      match steps[0]
      case Opening(h) => Disciplined(length, ended, seen[h := length], rest)
      case Closing(h) => Disciplined(length, ended, seen - {h}, rest)
      case Recording(h, _, io) =>
        if h !in seen || io.NothingWritten? then Disciplined(length, ended, seen, rest)
        else
          && !io.PartWritten? && ended && seen[h] == length
          && Disciplined(length + 1, !io.NoNewline?, if io.Synced? then seen[h := length + 1] else seen, rest)
  }

  function Seen(w: World): map<Handle, nat> {
    map h | h in w.handles :: w.handles[h].entries
  }

  /** A handle that has seen the whole file remembers its end. */
  predicate HandlesOk(hash: Hasher, w: World) {
    forall h :: h in w.handles ==>
      && w.handles[h].entries <= |w.file.lines|
      && (w.handles[h].entries == |w.file.lines| ==> w.handles[h] == StateOf(hash, w.file.lines))
  }

  /** The file verifies; an empty one counts as ended. */
  predicate Inv(hash: Hasher, w: World) {
    Chained(hash, w.file.lines) && (w.file.lines == [] ==> w.file.ended) && HandlesOk(hash, w)
  }

  lemma PrefixChained(hash: Hasher, f: seq<Line>, g: seq<Line>)
    requires f <= g
    ensures Chained(hash, g) ==> Chained(hash, f)
  {
    if Chained(hash, g) {
      TruncationVerifies(hash, g, |f|);
      assert g[..|f|] == f;
    }
  }

  /** Text added to a broken file, or joined to a line of any, leaves it broken. */
  lemma PutBreaks(hash: Hasher, d: Disk, line: Line, ended: bool)
    requires !Chained(hash, d.lines) || (!d.ended && d.lines != []) || line.Unreadable?
    ensures !Chained(hash, Put(d, line, ended).lines)
  {
    var lines := Put(d, line, ended).lines;
    if d.ended || d.lines == [] {
      PrefixChained(hash, d.lines, lines);
      assert lines[|d.lines|] == line;
    } else {
      assert lines[|d.lines| - 1] == Unreadable;
    }
  }

  /** A broken file is never mended by writing to it. */
  lemma {:induction false} BrokenStays(hash: Hasher, format: ConstraintValue -> string, w: World, steps: seq<Step>)
    requires !Chained(hash, w.file.lines)
    ensures !Chained(hash, Run(hash, format, w, steps).file.lines)
    decreases |steps|
  {
    if steps != [] {
      var s := steps[0];
      if s.Recording? && s.handle in w.handles && !s.io.NothingWritten? {
        var line := if s.io.PartWritten? then Unreadable else LineFor(hash, format, s.event, w.handles[s.handle]);
        PutBreaks(hash, w.file, line, s.io.Synced? || s.io.Unsynced?);
      }
      BrokenStays(hash, format, Next(hash, format, w, s), steps[1..]);
    }
  }

  /** Does this step leave the file verified? */
  predicate StepDisciplined(length: nat, ended: bool, seen: map<Handle, nat>, s: Step) {
    s.Recording? && s.handle in seen && !s.io.NothingWritten? ==>
      !s.io.PartWritten? && ended && seen[s.handle] == length
  }

  lemma AfterOpening(hash: Hasher, format: ConstraintValue -> string, w: World, h: Handle)
    requires Inv(hash, w)
    ensures var v := Next(hash, format, w, Opening(h));
            Inv(hash, v) && v.file == w.file && Seen(v) == Seen(w)[h := |w.file.lines|]
  {
    VerifyIffChained(hash, w.file.lines);
  }

  lemma AfterRecording(hash: Hasher, format: ConstraintValue -> string, w: World, s: Step)
    requires Inv(hash, w) && w.file.ended
    requires s.Recording? && s.handle in w.handles && !s.io.NothingWritten? && !s.io.PartWritten?
    ensures var v := Next(hash, format, w, s);
            && (Chained(hash, v.file.lines) <==> w.handles[s.handle].entries == |w.file.lines|)
            && (Chained(hash, v.file.lines) ==>
                  && Inv(hash, v) && |v.file.lines| == |w.file.lines| + 1 && v.file.ended == !s.io.NoNewline?
                  && Seen(v) == if s.io.Synced? then Seen(w)[s.handle := |w.file.lines| + 1] else Seen(w))
  {
    var state := w.handles[s.handle];
    AppendFits(hash, format, w.file.lines, state, s.event);
    assert state == StateOf(hash, w.file.lines) <==> state.entries == |w.file.lines|;
  }

  lemma BadRecording(hash: Hasher, format: ConstraintValue -> string, w: World, s: Step)
    requires Inv(hash, w) && s.Recording? && s.handle in w.handles && !s.io.NothingWritten?
    requires !w.file.ended || s.io.PartWritten?
    ensures !Chained(hash, Next(hash, format, w, s).file.lines)
  {
    var line := if s.io.PartWritten? then Unreadable else LineFor(hash, format, s.event, w.handles[s.handle]);
    PutBreaks(hash, w.file, line, s.io.Synced? || s.io.Unsynced?);
  }

  /** Each step keeps the file verified exactly when it is disciplined. */
  lemma StepVerifiesIff(hash: Hasher, format: ConstraintValue -> string, w: World, s: Step)
    requires Inv(hash, w)
    ensures Chained(hash, Next(hash, format, w, s).file.lines) <==>
            StepDisciplined(|w.file.lines|, w.file.ended, Seen(w), s)
    ensures Chained(hash, Next(hash, format, w, s).file.lines) ==> Inv(hash, Next(hash, format, w, s))
  {
    match s
    case Opening(h) => AfterOpening(hash, format, w, h);
    case Closing(_) =>
    case Recording(h, e, io) =>
      if h in w.handles && !io.NothingWritten? {
        if w.file.ended && !io.PartWritten? {
          AfterRecording(hash, format, w, s);
        } else {
          BadRecording(hash, format, w, s);
        }
      }
  }

  /** After every run the file verifies if and only if the run was disciplined:
      however often the log is opened, by however many handles. */
  lemma {:induction false} RunVerifiesIff(hash: Hasher, format: ConstraintValue -> string, w: World, steps: seq<Step>)
    requires Inv(hash, w)
    ensures Verify(hash, Run(hash, format, w, steps).file.lines).Ok? <==>
            Disciplined(|w.file.lines|, w.file.ended, Seen(w), steps)
    ensures Disciplined(|w.file.lines|, w.file.ended, Seen(w), steps) ==> Inv(hash, Run(hash, format, w, steps))
    decreases |steps|
  {
    VerifyIffChained(hash, Run(hash, format, w, steps).file.lines);
    if steps != [] {
      var s := steps[0];
      var v := Next(hash, format, w, s);
      StepVerifiesIff(hash, format, w, s);
      if Chained(hash, v.file.lines) {
        RunVerifiesIff(hash, format, v, steps[1..]);
        SeenAfter(hash, format, w, s);
      } else {
        BrokenStays(hash, format, v, steps[1..]);
      }
    }
  }

  lemma SeenAfter(hash: Hasher, format: ConstraintValue -> string, w: World, s: Step)
    requires Inv(hash, w) && Chained(hash, Next(hash, format, w, s).file.lines)
    ensures var v := Next(hash, format, w, s);
            match s
            case Opening(h) => v.file == w.file && Seen(v) == Seen(w)[h := |w.file.lines|]
            case Closing(h) => v.file == w.file && Seen(v) == Seen(w) - {h}
            case Recording(h, _, io) =>
              if h !in w.handles || io.NothingWritten? then v.file == w.file && Seen(v) == Seen(w)
              else
                && !io.PartWritten? && w.file.ended
                && |v.file.lines| == |w.file.lines| + 1 && v.file.ended == !io.NoNewline?
                && Seen(v) == if io.Synced? then Seen(w)[h := |w.file.lines| + 1] else Seen(w)
  {
    match s
    case Opening(h) => AfterOpening(hash, format, w, h);
    case Closing(h) =>
    case Recording(h, e, io) =>
      if h in w.handles && !io.NothingWritten? {
        StepVerifiesIff(hash, format, w, s);
        AfterRecording(hash, format, w, s);
      }
  }

  // ---------------------------------------------------------------------
  // What the file then holds.

  /** The events that reach the file. */
  function Written(live: set<Handle>, steps: seq<Step>): seq<Event>
    decreases |steps|
  {
    if steps == [] then []
    else
      match steps[0]
      case Opening(h) => Written(live + {h}, steps[1..])
      case Closing(h) => Written(live - {h}, steps[1..])
      case Recording(h, e, io) =>
        (if h in live && !io.NothingWritten? && !io.PartWritten? then [e] else []) + Written(live, steps[1..])
  }

  /** A disciplined run writes exactly its events, chained, however the handles
      came and went: memory never matters. */
  lemma {:induction false} FileIsItsEvents(hash: Hasher, format: ConstraintValue -> string, w: World, steps: seq<Step>)
    requires Inv(hash, w) && Disciplined(|w.file.lines|, w.file.ended, Seen(w), steps)
    ensures Run(hash, format, w, steps).file.lines
         == LinesFor(hash, format, w.file.lines, Written(w.handles.Keys, steps))
    decreases |steps|
  {
    if steps != [] {
      var s := steps[0];
      var v := Next(hash, format, w, s);
      StepVerifiesIff(hash, format, w, s);
      SeenAfter(hash, format, w, s);
      FileIsItsEvents(hash, format, v, steps[1..]);
      KeysAfter(hash, format, w, s);
      if s.Recording? && s.handle in w.handles && !s.io.NothingWritten? {
        assert w.handles[s.handle] == StateOf(hash, w.file.lines);
        LinesForCons(hash, format, w.file.lines, s.event, Written(v.handles.Keys, steps[1..]));
      } else {
        assert [] + Written(v.handles.Keys, steps[1..]) == Written(v.handles.Keys, steps[1..]);
      }
    }
  }

  /** So after a disciplined run the i-th new line says what the i-th event written says. */
  lemma FileTellsItsEvents(hash: Hasher, format: ConstraintValue -> string, w: World, steps: seq<Step>)
    requires Inv(hash, w) && Disciplined(|w.file.lines|, w.file.ended, Seen(w), steps)
    ensures AllTell(format, w.file.lines, Written(w.handles.Keys, steps), Run(hash, format, w, steps).file.lines)
  {
    FileIsItsEvents(hash, format, w, steps);
    LinesTell(hash, format, w.file.lines, Written(w.handles.Keys, steps));
  }

  lemma KeysAfter(hash: Hasher, format: ConstraintValue -> string, w: World, s: Step)
    requires Chained(hash, w.file.lines)
    ensures var keys := Next(hash, format, w, s).handles.Keys;
            match s
            case Opening(h) => keys == w.handles.Keys + {h}
            case Closing(h) => keys == w.handles.Keys - {h}
            case Recording(_, _, _) => keys == w.handles.Keys
  {
    VerifyIffChained(hash, w.file.lines);
  }

  lemma LinesForCons(hash: Hasher, format: ConstraintValue -> string, file: seq<Line>, e: Event, events: seq<Event>)
    ensures LinesFor(hash, format, file, [e] + events)
         == LinesFor(hash, format, file + [LineFor(hash, format, e, StateOf(hash, file))], events)
  {
    assert ([e] + events)[1..] == events;
  }

  /** So two disciplined runs that write the same events write the same lines. */
  lemma OpeningsDoNotShow(hash: Hasher, format: ConstraintValue -> string, d: Disk, a: seq<Step>, b: seq<Step>)
    requires Chained(hash, d.lines) && (d.lines == [] ==> d.ended)
    requires Disciplined(|d.lines|, d.ended, map[], a) && Disciplined(|d.lines|, d.ended, map[], b)
    requires Written({}, a) == Written({}, b)
    ensures Run(hash, format, World(d, map[]), a).file.lines == Run(hash, format, World(d, map[]), b).file.lines
  {
    var w := World(d, map[]);
    assert Seen(w) == map[] && w.handles.Keys == {};
    FileIsItsEvents(hash, format, w, a);
    FileIsItsEvents(hash, format, w, b);
  }

  // ---------------------------------------------------------------------
  // One writer at a time.

  /** At most one handle is open at a time, and appends succeed or write nothing. */
  predicate OneWriter(open: Option<Handle>, steps: seq<Step>)
    decreases |steps|
  {
    steps != [] ==>
      match steps[0]
      case Opening(h) => (open.None? || open == Some(h)) && OneWriter(Some(h), steps[1..])
      case Closing(h) => OneWriter(if open == Some(h) then None else open, steps[1..])
      case Recording(_, _, io) => (io.Synced? || io.NothingWritten?) && OneWriter(open, steps[1..])
  }

  lemma {:induction false} OneWriterIsDisciplined(length: nat, open: Option<Handle>, seen: map<Handle, nat>,
                                                  steps: seq<Step>)
    requires OneWriter(open, steps)
    requires seen == if open.Some? then map[open.value := length] else map[]
    ensures Disciplined(length, true, seen, steps)
    decreases |steps|
  {
    if steps != [] {
      var rest := steps[1..];
      match steps[0]
      case Opening(h) => OneWriterIsDisciplined(length, Some(h), seen[h := length], rest);
      case Closing(h) =>
        OneWriterIsDisciplined(length, if open == Some(h) then None else open, seen - {h}, rest);
      case Recording(h, _, io) =>
        if h in seen && io.Synced? {
          OneWriterIsDisciplined(length + 1, open, seen[h := length + 1], rest);
        } else {
          OneWriterIsDisciplined(length, open, seen, rest);
        }
    }
  }

  /** Every open handle remembers the end of the file. */
  predicate AllInStep(hash: Hasher, w: World) {
    forall h :: h in w.handles ==> w.handles[h] == StateOf(hash, w.file.lines)
  }

  /** One writer at a time always remembers the end of the file. */
  lemma {:induction false} OneWriterRemembers(hash: Hasher, format: ConstraintValue -> string, w: World,
                                              open: Option<Handle>, steps: seq<Step>)
    requires Chained(hash, w.file.lines) && w.file.ended && OneWriter(open, steps)
    requires w.handles == if open.Some? then map[open.value := StateOf(hash, w.file.lines)] else map[]
    ensures AllInStep(hash, Run(hash, format, w, steps))
    decreases |steps|
  {
    if steps != [] {
      var v := Next(hash, format, w, steps[0]);
      match steps[0]
      case Opening(h) =>
        VerifyIffChained(hash, w.file.lines);
        OneWriterRemembers(hash, format, v, Some(h), steps[1..]);
      case Closing(h) => OneWriterRemembers(hash, format, v, if open == Some(h) then None else open, steps[1..]);
      case Recording(h, e, io) =>
        if h in w.handles {
          AppendFits(hash, format, w.file.lines, w.handles[h], e);
          assert v.handles == map[h := StateOf(hash, v.file.lines)];
        }
        OneWriterRemembers(hash, format, v, open, steps[1..]);
    }
  }

  /** Any sequence of openings, closings and appends by one writer at a time, on a
      verified file that ends in a newline, leaves a file that verifies, with the
      writer's memory at its end. */
  lemma OneWriterVerifies(hash: Hasher, format: ConstraintValue -> string, lines: seq<Line>, steps: seq<Step>)
    requires Chained(hash, lines) && OneWriter(None, steps)
    ensures var w := Run(hash, format, World(Disk(lines, true), map[]), steps);
            && Verify(hash, w.file.lines) == Ok(StateOf(hash, w.file.lines))
            && w.file.lines == LinesFor(hash, format, lines, Written({}, steps))
            && AllInStep(hash, w)
  {
    var w := World(Disk(lines, true), map[]);
    OneWriterRemembers(hash, format, w, None, steps);
    assert Seen(w) == map[] && w.handles.Keys == {};
    OneWriterIsDisciplined(|lines|, None, map[], steps);
    RunVerifiesIff(hash, format, w, steps);
    VerifyIffChained(hash, Run(hash, format, w, steps).file.lines);
    FileIsItsEvents(hash, format, w, steps);
  }

  const NEW_FILE := World(Disk([], true), map[])

  /** Two handles on one file break it. */
  lemma TwoWritersBreak(hash: Hasher, format: ConstraintValue -> string, e: Event)
    ensures var steps := [Opening(0), Opening(1), Recording(0, e, Synced), Recording(1, e, Synced)];
            Verify(hash, Run(hash, format, NEW_FILE, steps).file.lines).Err?
  {
    var steps := [Opening(0), Opening(1), Recording(0, e, Synced), Recording(1, e, Synced)];
    assert Seen(NEW_FILE) == map[];
    var last := [Recording(1, e, Synced)];
    assert steps[1..][1..][1..] == last;
    var seen: map<Handle, nat> := map[];
    assert !Disciplined(1, true, seen[0 := 0][1 := 0][0 := 1], last);
    assert !Disciplined(0, true, seen[0 := 0][1 := 0], steps[1..][1..]);
    assert !Disciplined(0, true, seen[0 := 0], steps[1..]);
    RunVerifiesIff(hash, format, NEW_FILE, steps);
  }

  /** So does recording again after a sync that failed once the line was written. */
  lemma FailedSyncBreaks(hash: Hasher, format: ConstraintValue -> string, e: Event)
    ensures var steps := [Opening(0), Recording(0, e, Unsynced), Recording(0, e, Synced)];
            Verify(hash, Run(hash, format, NEW_FILE, steps).file.lines).Err?
  {
    var steps := [Opening(0), Recording(0, e, Unsynced), Recording(0, e, Synced)];
    assert Seen(NEW_FILE) == map[];
    assert steps[1..] == [Recording(0, e, Unsynced), Recording(0, e, Synced)];
    assert steps[1..][1..] == [Recording(0, e, Synced)];
    assert !Disciplined(1, true, map[0 := 0], [Recording(0, e, Synced)]);
    RunVerifiesIff(hash, format, NEW_FILE, steps);
  }

  /** A line whose newline was not written: the file verifies and the log opens again,
      but whoever then records breaks the file, however up to date. */
  lemma MissingNewlineBreaks(hash: Hasher, format: ConstraintValue -> string, e: Event)
    ensures var torn := [Opening(0), Recording(0, e, NoNewline), Closing(0), Opening(1)];
            var w := Run(hash, format, NEW_FILE, torn);
            && Verify(hash, w.file.lines).Ok?
            && 1 in w.handles && w.handles[1] == StateOf(hash, w.file.lines)
            && Verify(hash, Next(hash, format, w, Recording(1, e, Synced)).file.lines).Err?
  {
    var torn := [Opening(0), Recording(0, e, NoNewline), Closing(0), Opening(1)];
    var w1 := Next(hash, format, NEW_FILE, torn[0]);
    var w2 := Next(hash, format, w1, torn[1]);
    var w3 := Next(hash, format, w2, torn[2]);
    var w := Next(hash, format, w3, torn[3]);
    AfterOpening(hash, format, NEW_FILE, 0);
    AfterRecording(hash, format, w1, torn[1]);
    AfterOpening(hash, format, w3, 1);
    VerifyIffChained(hash, w.file.lines);
    RunFour(hash, format, NEW_FILE, torn[0], torn[1], torn[2], torn[3]);
    var v := Next(hash, format, w, Recording(1, e, Synced));
    StepVerifiesIff(hash, format, w, Recording(1, e, Synced));
    VerifyIffChained(hash, v.file.lines);
  }

  lemma RunFour(hash: Hasher, format: ConstraintValue -> string, w: World, a: Step, b: Step, c: Step, d: Step)
    ensures Run(hash, format, w, [a, b, c, d])
         == Next(hash, format, Next(hash, format, Next(hash, format, Next(hash, format, w, a), b), c), d)
  {
    var w1 := Next(hash, format, w, a);
    var w2 := Next(hash, format, w1, b);
    var w3 := Next(hash, format, w2, c);
    assert [a, b, c, d][1..] == [b, c, d] && [b, c, d][1..] == [c, d] && [c, d][1..] == [d] && [d][1..] == [];
    assert Run(hash, format, w3, [d]) == Run(hash, format, Next(hash, format, w3, d), []);
    assert Run(hash, format, w2, [c, d]) == Run(hash, format, w3, [d]);
    assert Run(hash, format, w1, [b, c, d]) == Run(hash, format, w2, [c, d]);
  }
}
