/** The event-driven parser of the interlocking table, and a canonical printer for the same table. */
module InterlockingParser {
  import opened Wrappers
  import opened RouteTable

  /** Marker: stream start, document start or end. Broken: an alias, no event, or one the parser does not know;
      a failure of the YAML library is one more way to stop. */
  datatype Event = Marker | SeqStart | SeqEnd | MapStart | MapEnd | Scalar(text: string) | StreamEnd | Failure | Broken

  datatype Sequence = NoSequence | Routes | Path | Sections | Points | Signals | Conflicts

  datatype Mapping = Table | RouteLevel | Segment | Block | PointLevel | Signal | Conflict

  function DecreaseMapping(level: Mapping): Mapping {
    match level
    case Table => Table
    case RouteLevel => Table
    case _ => RouteLevel
  }

  function DecreaseSequence(level: Sequence): Sequence {
    match level
    case NoSequence => NoSequence
    case Routes => NoSequence
    case _ => Routes
  }

  // ----- key names -----

  datatype Key = Id | Source | Destination | Orientation | Length | PathKey | SectionsKey | PointsKey | SignalsKey
               | ConflictsKey | PositionKey | TableKey | Other

  function Name(k: Key): string {
    match k
    case Id => "id" case Source => "source" case Destination => "destination" case Orientation => "orientation"
    case Length => "length" case PathKey => "path" case SectionsKey => "sections" case PointsKey => "points"
    case SignalsKey => "signals" case ConflictsKey => "conflicts" case PositionKey => "position"
    case TableKey => "interlocking-table" case Other => ""
  }

  /** Which key name a scalar is, if any. */
  function KeyOf(s: string): Key {
    if s == "id" then Id else if s == "source" then Source else if s == "destination" then Destination
    else if s == "orientation" then Orientation else if s == "length" then Length else if s == "path" then PathKey
    else if s == "sections" then SectionsKey else if s == "points" then PointsKey else if s == "signals" then SignalsKey
    else if s == "conflicts" then ConflictsKey else if s == "position" then PositionKey
    else if s == "interlocking-table" then TableKey else Other
  }

  lemma KeyOfName(k: Key)
    ensures KeyOf(Name(k)) == k
  {
  }

  lemma NameOfKey(s: string)
    ensures KeyOf(s) != Other ==> s == Name(KeyOf(s))
  {
  }

  // ----- the parser's state -----

  datatype DraftPoint = DraftPoint(id: Option<string>, position: Position)

  /** A route under construction; None is a null pointer. */
  datatype Draft = Draft(
    id: Option<string>, source: Option<string>, destination: Option<string>, orientation: Option<string>,
    length: Option<string>, path: Option<seq<string>>, sections: Option<seq<string>>,
    points: Option<seq<DraftPoint>>, signals: Option<seq<string>>, conflicts: Option<seq<string>>)

  const NO_DRAFT := Draft(None, None, None, None, None, None, None, None, None, None)

  /** The routes allocated so far in order, the last one being the current one; the table from ids to them; and
      those freed because another route took their id. `last` is the scalar of the preceding event. */
  datatype State = State(
    mapping: Mapping, sequence: Sequence, last: Option<string>, pool: seq<Draft>,
    table: Option<map<string, nat>>, freed: set<nat>, done: bool, crashed: bool)
  {
    function Current(): Draft {
      if pool == [] then NO_DRAFT else pool[|pool| - 1]
    }

    function Put(d: Draft): State {
      if pool == [] then this else this.(pool := pool[|pool| - 1 := d])
    }
  }

  const START := State(Table, NoSequence, None, [], None, {}, false, false)

  function Appended<T>(list: Option<seq<T>>, x: T): Option<seq<T>> {
    match list
    case None => None
    case Some(items) => Some(items + [x])
  }

  function Assign(d: Draft, k: Key, v: string): Draft {
    match k
    case Id => d.(id := Some(v))
    case Source => d.(source := Some(v))
    case Destination => d.(destination := Some(v))
    case Orientation => d.(orientation := Some(v))
    case Length => d.(length := Some(v))
    case _ => d
  }

  function AssignPoint(p: DraftPoint, k: Key, v: string): DraftPoint {
    match k
    case Id => p.(id := Some(v))
    case PositionKey => p.(position := if v == "reverse" then Reverse else Normal)
    case _ => p
  }

  function SetLastPoint(points: Option<seq<DraftPoint>>, k: Key, v: string): Option<seq<DraftPoint>> {
    match points
    case None => None
    case Some(ps) => if ps == [] then points else Some(ps[|ps| - 1 := AssignPoint(ps[|ps| - 1], k, v)])
  }

  function OnSeqStart(s: State): State {
    match s.mapping
    case Table =>
      if s.last == None then s.(crashed := true)
      else if KeyOf(s.last.value) == TableKey then
        s.(sequence := Routes, table := if s.table == None then Some(map[]) else s.table)
      else s
    case RouteLevel =>
      if s.last == None then s.(crashed := true)
      else
        var d := s.Current();
        (match KeyOf(s.last.value)
         case PathKey => s.Put(d.(path := Some([]))).(sequence := Path)
         case SectionsKey => s.Put(d.(sections := Some([]))).(sequence := Sections)
         case PointsKey => s.Put(d.(points := Some([]))).(sequence := Points)
         case SignalsKey => s.Put(d.(signals := Some([]))).(sequence := Signals)
         case ConflictsKey => s.Put(d.(conflicts := Some([]))).(sequence := Conflicts)
         case _ => s)
    case _ => s
  }

  function OnMapStart(s: State): State {
    match s.sequence
    case NoSequence => s
    case Routes => s.(mapping := RouteLevel, pool := s.pool + [NO_DRAFT])
    case Path => s.(mapping := Segment)
    case Sections => s.(mapping := Block)
    case Points =>
      var d := s.Current();
      s.Put(d.(points := Appended(d.points, DraftPoint(None, Normal)))).(mapping := PointLevel)
    case Signals => s.(mapping := Signal)
    case Conflicts => s.(mapping := Conflict)
  }

  function Insert(s: State): State {
    match s.Current().id
    case None => s
    case Some(id) =>
      if s.pool == [] || s.table == None then s
      else
        var t := s.table.value;
        s.(table := Some(t[id := |s.pool| - 1]), freed := if id in t then s.freed + {t[id]} else s.freed)
  }

  function OnMapEnd(s: State): State {
    (if s.mapping == RouteLevel then Insert(s) else s).(mapping := DecreaseMapping(s.mapping))
  }

  function OnScalar(s: State, v: string): State {
    match s.last
    case None => s
    case Some(key) =>
      var k, d := KeyOf(key), s.Current();
      match s.mapping
      case Table => s
      case RouteLevel => s.Put(Assign(d, k, v))
      case Segment => if k == Id then s.Put(d.(path := Appended(d.path, v))) else s
      case Block => if k == Id then s.Put(d.(sections := Appended(d.sections, v))) else s
      case PointLevel => s.Put(d.(points := SetLastPoint(d.points, k, v)))
      case Signal => if k == Id then s.Put(d.(signals := Appended(d.signals, v))) else s
      case Conflict => if k == Id then s.Put(d.(conflicts := Appended(d.conflicts, v))) else s
  }

  function Feed(s: State, e: Event): State {
    match e
    case Marker => s.(last := None)
    case SeqStart => OnSeqStart(s).(last := None)
    case SeqEnd => s.(sequence := DecreaseSequence(s.sequence), last := None)
    case MapStart => OnMapStart(s).(last := None)
    case MapEnd => OnMapEnd(s).(last := None)
    case Scalar(v) => OnScalar(s, v).(last := Some(v))
    case StreamEnd => s.(done := true)
    case Failure => s.(done := true)
    case Broken => s.(last := None, done := true)
  }

  function Run(s: State, events: seq<Event>): State
    decreases |events|
  {
    if events == [] || s.done || s.crashed then s else Run(Feed(s, events[0]), events[1..])
  }

  /** Reads events until the stream ends or breaks; a crash is a comparison with a null scalar. */
  method Parse(events: seq<Event>) returns (s: State)
    ensures s == Run(START, events)
  {
    s := START;
    var error := false;
    var i := 0;
    while !error && i < |events| && !s.crashed
      invariant i <= |events| && s.done == error
      invariant Run(s, events[i..]) == Run(START, events)
    {
      assert events[i..][0] == events[i] && events[i..][1..] == events[i + 1..];
      hide OnSeqStart, OnMapStart, OnMapEnd, OnScalar;
      var cur := None;
      match events[i] {
        case Marker =>
        case SeqStart => s := OnSeqStart(s);
        case SeqEnd => s := s.(sequence := DecreaseSequence(s.sequence));
        case MapStart => s := OnMapStart(s);
        case MapEnd => s := OnMapEnd(s);
        case Scalar(v) =>
          cur := Some(v);
          s := OnScalar(s, v);
        case Broken => error := true;
        case StreamEnd | Failure =>
          s := s.(done := true);
          return;
      }
      s := s.(last := cur, done := error);
      i := i + 1;
    }
  }

  // ----- what no event stream can do -----

  predicate Has(d: Draft, q: Sequence) {
    match q
    case Path => d.path.Some?
    case Sections => d.sections.Some?
    case Points => d.points.Some?
    case Signals => d.signals.Some?
    case Conflicts => d.conflicts.Some?
    case _ => true
  }

  /** The list whose items live at a level. */
  function ListAt(level: Mapping): Sequence {
    match level
    case Segment => Path
    case Block => Sections
    case PointLevel => Points
    case Signal => Signals
    case Conflict => Conflicts
    case _ => NoSequence
  }

  /** The list that a level appends to has been allocated. */
  predicate Allocated(s: State) {
    && (s.mapping != Table || s.sequence !in {NoSequence, Routes} ==> s.pool != [])
    && (s.pool != [] || s.sequence == Routes ==> s.table.Some?)
    && Has(s.Current(), s.sequence) && Has(s.Current(), ListAt(s.mapping))
    && (s.mapping == PointLevel ==> s.Current().points.value != [])
  }

  lemma OpenedList(s: State, d: Draft, q: Sequence)
    requires Allocated(s) && s.mapping == RouteLevel && Has(d, q)
    ensures Allocated(s.Put(d).(sequence := q))
  {
    hide Has;
    assert Has(d, ListAt(RouteLevel)) by { NothingNeeded(d); }
  }

  lemma NothingNeeded(d: Draft)
    ensures Has(d, NoSequence) && Has(d, Routes)
  {
  }

  lemma SeqStartKeepsAllocated(s: State)
    requires Allocated(s)
    ensures Allocated(OnSeqStart(s))
  {
    if s.mapping == RouteLevel && s.last.Some? {
      var d := s.Current();
      OpenedList(s, d.(path := Some([])), Path);
      OpenedList(s, d.(sections := Some([])), Sections);
      OpenedList(s, d.(points := Some([])), Points);
      OpenedList(s, d.(signals := Some([])), Signals);
      OpenedList(s, d.(conflicts := Some([])), Conflicts);
      hide KeyOf, Allocated;
    } else {
      hide KeyOf;
    }
  }

  lemma MapStartKeepsAllocated(s: State)
    requires Allocated(s)
    ensures Allocated(OnMapStart(s))
  {
  }

  lemma MapEndKeepsAllocated(s: State)
    requires Allocated(s)
    ensures Allocated(OnMapEnd(s))
  {
  }

  /** Every list of d is still there. */
  predicate Covers(e: Draft, d: Draft) {
    && (d.path.Some? ==> e.path.Some?) && (d.sections.Some? ==> e.sections.Some?)
    && (d.signals.Some? ==> e.signals.Some?) && (d.conflicts.Some? ==> e.conflicts.Some?)
    && (d.points.Some? ==> e.points.Some? && (d.points.value != [] ==> e.points.value != []))
  }

  lemma PutKeepsAllocated(s: State, e: Draft)
    requires Allocated(s) && Covers(e, s.Current())
    ensures Allocated(s.Put(e))
  {
  }

  lemma AssignCovers(d: Draft, k: Key, v: string)
    ensures Covers(Assign(d, k, v), d)
    ensures Covers(d.(points := SetLastPoint(d.points, k, v)), d)
  {
    hide AssignPoint;
  }

  lemma ScalarKeepsAllocated(s: State, v: string)
    requires Allocated(s)
    ensures Allocated(OnScalar(s, v))
  {
    if s.last.Some? && s.mapping != Table {
      var k, d := KeyOf(s.last.value), s.Current();
      AssignCovers(d, k, v);
      hide KeyOf, Allocated, Assign, SetLastPoint;
      var e := match s.mapping
               case RouteLevel => Assign(d, k, v)
               case Segment => if k == Id then d.(path := Appended(d.path, v)) else d
               case Block => if k == Id then d.(sections := Appended(d.sections, v)) else d
               case PointLevel => d.(points := SetLastPoint(d.points, k, v))
               case Signal => if k == Id then d.(signals := Appended(d.signals, v)) else d
               case _ => if k == Id then d.(conflicts := Appended(d.conflicts, v)) else d;
      PutKeepsAllocated(s, e);
      assert s.Put(d) == s;
    }
  }

  lemma FeedKeepsAllocated(s: State, e: Event)
    requires Allocated(s)
    ensures Allocated(Feed(s, e))
  {
    hide OnSeqStart, OnMapStart, OnMapEnd, OnScalar, Has;
    match e
    case SeqStart => SeqStartKeepsAllocated(s); SameLevels(OnSeqStart(s), Feed(s, e));
    case MapStart => MapStartKeepsAllocated(s); SameLevels(OnMapStart(s), Feed(s, e));
    case MapEnd => MapEndKeepsAllocated(s); SameLevels(OnMapEnd(s), Feed(s, e));
    case Scalar(v) => ScalarKeepsAllocated(s, v); SameLevels(OnScalar(s, v), Feed(s, e));
    case SeqEnd => SeqEndKeepsAllocated(s);
    case _ => SameLevels(s, Feed(s, e));
  }

  lemma SeqEndKeepsAllocated(s: State)
    requires Allocated(s)
    ensures Allocated(s.(sequence := DecreaseSequence(s.sequence), last := None))
  {
  }

  lemma SameLevels(s: State, s': State)
    requires Allocated(s) && s'.mapping == s.mapping && s'.sequence == s.sequence
    requires s'.pool == s.pool && s'.table == s.table
    ensures Allocated(s')
  {
  }

  /** No sequence of events, however malformed, makes the parser append to a list that was never allocated or
      insert into a table that does not exist. */
  lemma {:induction false} PointersAreNeverNull(s: State, events: seq<Event>)
    requires Allocated(s)
    ensures Allocated(Run(s, events))
    decreases |events|
  {
    if events != [] && !s.done && !s.crashed {
      hide Feed, Allocated;
      FeedKeepsAllocated(s, events[0]);
      PointersAreNeverNull(Feed(s, events[0]), events[1..]);
    }
  }

  predicate SequencesNamed(events: seq<Event>) {
    forall i :: 0 <= i < |events| - 1 && events[i + 1] == SeqStart ==> events[i].Scalar?
  }

  /** If every sequence directly follows a scalar, no null scalar is ever compared. */
  lemma {:induction false} NamedSequencesNeverCrash(s: State, events: seq<Event>)
    requires !s.crashed && SequencesNamed(events)
    requires events != [] && events[0] == SeqStart ==> s.last.Some?
    ensures !Run(s, events).crashed
    decreases |events|
  {
    if events != [] && !s.done {
      var rest := events[1..];
      assert rest != [] ==> rest[0] == events[0 + 1];
      forall i | 0 <= i < |rest| - 1 && rest[i + 1] == SeqStart ensures rest[i].Scalar? {
        assert events[i + 1 + 1] == SeqStart;
      }
      hide KeyOf, Assign, Appended, SetLastPoint;
      NamedSequencesNeverCrash(Feed(s, events[0]), events[1..]);
    }
  }

  // ----- exactly when the parser compares a null scalar -----

  predicate IsStop(e: Event) {
    e == StreamEnd || e == Failure || e == Broken
  }

  predicate NoStop(events: seq<Event>) {
    forall i :: 0 <= i < |events| ==> !IsStop(events[i])
  }

  /** The key named by the last event, if that is a scalar. */
  function LastKey(events: seq<Event>): Option<Key> {
    if events != [] && events[|events| - 1].Scalar? then Some(KeyOf(events[|events| - 1].text)) else None
  }

  /** How deep the events are nested, in the parser's levels: items of the lists it knows, else the level around. */
  function Levels(events: seq<Event>): (Mapping, Sequence) {
    if events == [] then (Table, NoSequence)
    else
      var front, last := events[..|events| - 1], events[|events| - 1];
      var (m, q) := Levels(front);
      match last
      case SeqStart => (m, Opened(m, q, LastKey(front)))
      case SeqEnd => (m, DecreaseSequence(q))
      case MapStart => (Entered(m, q), q)
      case MapEnd => (DecreaseMapping(m), q)
      case _ => (m, q)
  }

  function Opened(m: Mapping, q: Sequence, key: Option<Key>): Sequence {
    if m == Table && key == Some(TableKey) then Routes
    else if m != RouteLevel then q
    else
      match key
      case Some(PathKey) => Path
      case Some(SectionsKey) => Sections
      case Some(PointsKey) => Points
      case Some(SignalsKey) => Signals
      case Some(ConflictsKey) => Conflicts
      case _ => q
  }

  function Entered(m: Mapping, q: Sequence): Mapping {
    match q
    case NoSequence => m
    case Routes => RouteLevel
    case Path => Segment
    case Sections => Block
    case Points => PointLevel
    case Signals => Signal
    case Conflicts => Conflict
  }

  /** The i-th event opens a list at table or route level, not directly after a scalar. */
  predicate Bare(events: seq<Event>, i: nat)
    requires i < |events|
  {
    events[i] == SeqStart && LastKey(events[..i]) == None && Levels(events[..i]).0 in {Table, RouteLevel}
  }

  predicate AtLevels(s: State, levels: (Mapping, Sequence), last: Option<Key>) {
    && !s.done && s.mapping == levels.0 && s.sequence == levels.1
    && last == match s.last case None => None case Some(text) => Some(KeyOf(text))
  }

  lemma SeqStartMoves(s: State, levels: (Mapping, Sequence), last: Option<Key>)
    requires AtLevels(s, levels, last) && !s.crashed
    ensures var s' := OnSeqStart(s);
            && (s'.crashed <==> last == None && levels.0 in {Table, RouteLevel})
            && !s'.done && s'.mapping == levels.0 && s'.sequence == Opened(levels.0, levels.1, last)
  {
    hide KeyOf;
  }

  lemma MapAndScalarMove(s: State, v: string)
    ensures var s' := OnMapStart(s);
            s'.mapping == Entered(s.mapping, s.sequence) && s'.sequence == s.sequence
            && s'.done == s.done && s'.crashed == s.crashed
    ensures var s' := OnMapEnd(s);
            s'.mapping == DecreaseMapping(s.mapping) && s'.sequence == s.sequence
            && s'.done == s.done && s'.crashed == s.crashed
    ensures var s' := OnScalar(s, v);
            s'.mapping == s.mapping && s'.sequence == s.sequence && s'.done == s.done && s'.crashed == s.crashed
  {
    hide KeyOf, Assign, Appended, SetLastPoint;
  }

  lemma FeedMovesLevels(s: State, front: seq<Event>, e: Event)
    requires AtLevels(s, Levels(front), LastKey(front)) && !s.crashed
    ensures Feed(s, e).crashed <==> e == SeqStart && LastKey(front) == None && Levels(front).0 in {Table, RouteLevel}
    ensures Feed(s, e).done <==> IsStop(e)
    ensures !IsStop(e) ==> AtLevels(Feed(s, e), Levels(front + [e]), LastKey(front + [e]))
  {
    SeqStartMoves(s, Levels(front), LastKey(front));
    MapAndScalarMove(s, if e.Scalar? then e.text else "");
    assert (front + [e])[..|front|] == front;
    hide KeyOf, OnSeqStart, OnMapStart, OnMapEnd, OnScalar, Opened, Entered, DecreaseMapping, DecreaseSequence;
  }

  lemma RunLast(s: State, events: seq<Event>)
    requires events != []
    ensures var before := Run(s, events[..|events| - 1]);
            Run(s, events) == if before.done || before.crashed then before else Feed(before, events[|events| - 1])
  {
    var front, last := events[..|events| - 1], events[|events| - 1];
    assert events == front + [last];
    RunAppend(s, front, [last]);
    assert [last][1..] == [];
    hide Feed;
  }

  lemma {:induction false} TracksLevels(events: seq<Event>)
    requires !Run(START, events).crashed && NoStop(events)
    ensures AtLevels(Run(START, events), Levels(events), LastKey(events))
  {
    if events != [] {
      var front, last := events[..|events| - 1], events[|events| - 1];
      RunLast(START, events);
      assert IsStop(last) == false && front + [last] == events;
      hide AtLevels, Levels, LastKey, Run, Feed, IsStop;
      TracksLevels(front);
      FeedMovesLevels(Run(START, front), front, last);
    }
  }
  lemma {:induction false} StopEnds(events: seq<Event>)
    requires !Run(START, events).crashed && !NoStop(events)
    ensures Run(START, events).done
  {
    var front, last := events[..|events| - 1], events[|events| - 1];
    RunLast(START, events);
    if NoStop(front) {
      assert IsStop(last);
    } else {
      hide Run, Feed, IsStop;
      StopEnds(front);
    }
  }

  /** Before the stream stops, some list is bare. */
  predicate BareListBeforeStop(events: seq<Event>) {
    exists i :: 0 <= i < |events| && NoStop(events[..i]) && Bare(events, i)
  }

  lemma BareListLast(front: seq<Event>, e: Event)
    ensures BareListBeforeStop(front + [e]) <==>
            BareListBeforeStop(front) || (NoStop(front) && Bare(front + [e], |front|))
  {
    var events := front + [e];
    assert events[..|front|] == front;
    forall i | 0 <= i < |front| ensures Bare(events, i) <==> Bare(front, i) {
      assert events[..i] == front[..i];
    }
    forall i | 0 <= i < |front| ensures events[..i] == front[..i] {
    }
    hide Bare, NoStop;
    if BareListBeforeStop(front) {
      var i :| 0 <= i < |front| && NoStop(front[..i]) && Bare(front, i);
      assert NoStop(events[..i]) && Bare(events, i);
    }
  }

  /** Reading any events, the parser compares a null scalar if and only if, before the stream stops, a list opens at
      table or route level without directly following a scalar. */
  lemma {:induction false} CrashesIff(events: seq<Event>)
    ensures Run(START, events).crashed <==> BareListBeforeStop(events)
  {
    if events != [] {
      var front, last := events[..|events| - 1], events[|events| - 1];
      CrashesIff(front);
      RunLast(START, events);
      BareListLast(front, last);
      assert front + [last] == events && events[..|front|] == front;
      var s := Run(START, front);
      if !s.crashed {
        if NoStop(front) {
          TracksLevels(front);
          FeedMovesLevels(s, front, last);
        } else {
          StopEnds(front);
        }
      }
      hide Run, Feed, NoStop, Levels, LastKey, BareListBeforeStop;
    }
  }

  /** So does a document that is a list, whatever follows. */
  lemma TopLevelListCrashes(rest: seq<Event>)
    ensures Run(START, [Marker, Marker, SeqStart] + rest).crashed
  {
    var events := [Marker, Marker, SeqStart] + rest;
    assert events[..2] == [Marker, Marker] && [Marker, Marker][..1] == [Marker] && [Marker][..0] == [];
    assert NoStop(events[..2]) && Bare(events, 2);
    CrashesIff(events);
  }

  /** And so does a list directly inside the list of routes. */
  lemma NestedListCrashes(rest: seq<Event>)
    ensures Run(START, [Marker, Marker, MapStart, Scalar(Name(TableKey)), SeqStart, SeqStart] + rest).crashed
  {
    var events := [Marker, Marker, MapStart, Scalar(Name(TableKey)), SeqStart, SeqStart] + rest;
    KeyOfName(TableKey);
    hide KeyOf, Name;
    var a := [Marker, Marker, MapStart, Scalar(Name(TableKey))];
    assert events[..5] == a + [SeqStart] && (a + [SeqStart])[..4] == a;
    assert a[..3] == [Marker, Marker, MapStart] && a[..3][..2] == [Marker, Marker] && a[..3][..2][..1] == [Marker];
    assert [Marker][..0] == [] && Levels([]) == (Table, NoSequence);
    assert Levels([Marker, Marker]) == (Table, NoSequence);
    assert Levels(a[..3]) == (Table, NoSequence);
    assert Levels(a) == (Table, NoSequence);
    assert NoStop(events[..5]) && Bare(events, 5);
    CrashesIff(events);
  }

  // ----- the canonical printer -----

  /** One item of a list of ids. */
  function PrintItem(x: string): seq<Event> {
    [MapStart, Scalar(Name(Id)), Scalar(x), MapEnd]
  }

  function PrintItems(xs: seq<string>): seq<Event> {
    if xs == [] then [] else PrintItems(xs[..|xs| - 1]) + PrintItem(xs[|xs| - 1])
  }

  function PositionText(p: Position): string {
    if p == Reverse then "reverse" else "normal"
  }

  function PrintPoint(p: Point): seq<Event> {
    [MapStart, Scalar(Name(Id)), Scalar(p.id), Scalar(Name(PositionKey)), Scalar(PositionText(p.position)), MapEnd]
  }

  function PrintPoints(ps: seq<Point>): seq<Event> {
    if ps == [] then [] else PrintPoints(ps[..|ps| - 1]) + PrintPoint(ps[|ps| - 1])
  }

  function PrintScalar(k: Key, v: string): seq<Event> {
    [Scalar(Name(k)), Scalar(v)]
  }

  function PrintList(k: Key, items: seq<Event>): seq<Event> {
    [Scalar(Name(k)), SeqStart] + (items + [SeqEnd])
  }

  /** The members of a route in the order of the interlocking tables. */
  function PrintRoute(r: Route): seq<Event> {
    [MapStart]
    + (PrintScalar(Id, r.id)
    + (PrintScalar(Source, r.source)
    + (PrintScalar(Destination, r.destination)
    + (PrintScalar(Orientation, r.orientation)
    + (PrintList(PathKey, PrintItems(r.path))
    + (PrintList(SectionsKey, PrintItems(r.sections))
    + ((PrintScalar(Length, r.length) + PrintList(SignalsKey, PrintItems(r.signals)))
    + (PrintList(PointsKey, PrintPoints(r.points))
    + (PrintList(ConflictsKey, PrintItems(r.conflicts))
    + [MapEnd])))))))))
  }

  function PrintRoutes(rs: seq<Route>): seq<Event> {
    if rs == [] then [] else PrintRoutes(rs[..|rs| - 1]) + PrintRoute(rs[|rs| - 1])
  }

  function Print(rs: seq<Route>): seq<Event> {
    [Marker, Marker, MapStart, Scalar(Name(TableKey)), SeqStart]
    + (PrintRoutes(rs) + [SeqEnd, MapEnd, Marker, StreamEnd])
  }

  // ----- what the parser makes of a printed route -----

  /** The value a scalar member ends up with. A value that happens to be a key name makes the parser take the key
      that follows it for a value; `rank` is the member's place among id, source, destination, orientation, length. */
  function Settled(r: Route, k: Key, rank: nat, own: string): string {
    if KeyOf(r.length) == k then Name(SignalsKey) else SettledBefore(r, k, rank, own)
  }

  function SettledBefore(r: Route, k: Key, rank: nat, own: string): string {
    if rank <= 3 && KeyOf(r.orientation) == k then Name(PathKey)
    else if rank <= 2 && KeyOf(r.destination) == k then Name(Orientation)
    else if rank <= 1 && KeyOf(r.source) == k then Name(Destination)
    else if rank == 0 && KeyOf(r.id) == k then Name(Source)
    else own
  }

  function ParsedPoint(p: Point): DraftPoint {
    DraftPoint(Some(if KeyOf(p.id) == Id then Name(PositionKey) else p.id), p.position)
  }

  function ParsedPoints(ps: seq<Point>): seq<DraftPoint> {
    seq(|ps|, i requires 0 <= i < |ps| => ParsedPoint(ps[i]))
  }

  function Parsed(r: Route): Draft {
    Draft(Some(Settled(r, Id, 0, r.id)), Some(Settled(r, Source, 1, r.source)),
          Some(Settled(r, Destination, 2, r.destination)), Some(Settled(r, Orientation, 3, r.orientation)),
          Some(Settled(r, Length, 4, r.length)), Some(r.path), Some(r.sections), Some(ParsedPoints(r.points)),
          Some(r.signals), Some(r.conflicts))
  }

  lemma {:induction false} RunAppend(s: State, a: seq<Event>, b: seq<Event>)
    ensures Run(s, a + b) == Run(Run(s, a), b)
    decreases |a|
  {
    hide Feed;
    if a == [] {
      assert a + b == b;
    } else if !s.done && !s.crashed {
      assert (a + b)[0] == a[0] && (a + b)[1..] == a[1..] + b;
      RunAppend(Feed(s, a[0]), a[1..], b);
    }
  }

  predicate Reading(s: State) {
    !s.done && !s.crashed && s.pool != []
  }

  /** A list of ids at one of the four places a route has one. */
  function ListOf(d: Draft, q: Sequence): Option<seq<string>> {
    match q
    case Path => d.path
    case Sections => d.sections
    case Signals => d.signals
    case Conflicts => d.conflicts
    case _ => None
  }

  function WithList(d: Draft, q: Sequence, list: Option<seq<string>>): Draft {
    match q
    case Path => d.(path := list)
    case Sections => d.(sections := list)
    case Signals => d.(signals := list)
    case Conflicts => d.(conflicts := list)
    case _ => d
  }

  lemma ItemRead(s: State, x: string)
    requires Reading(s) && s.sequence in {Path, Sections, Signals, Conflicts}
    ensures Run(s, PrintItem(x)) ==
            s.Put(WithList(s.Current(), s.sequence, Appended(ListOf(s.Current(), s.sequence), x)))
             .(mapping := RouteLevel, last := None)
  {
    KeyOfName(Id);
    hide KeyOf, Name;
    RunFour(s, MapStart, Scalar(Name(Id)), Scalar(x), MapEnd);
  }

  lemma {:induction false} ItemsRead(s: State, xs: seq<string>)
    requires Reading(s) && s.sequence in {Path, Sections, Signals, Conflicts}
    requires s.mapping == RouteLevel && s.last == None && ListOf(s.Current(), s.sequence) == Some([])
    ensures Run(s, PrintItems(xs)) == s.Put(WithList(s.Current(), s.sequence, Some(xs)))
    decreases |xs|
  {
    hide PrintItem, Feed;
    if xs != [] {
      var front, x := xs[..|xs| - 1], xs[|xs| - 1];
      ItemsRead(s, front);
      RunAppend(s, PrintItems(front), PrintItem(x));
      ItemRead(Run(s, PrintItems(front)), x);
      assert front + [x] == xs;
    }
  }

  /** Inside the last of a route's points. */
  function AtPoint(s: State, ps: seq<DraftPoint>, p: DraftPoint, last: Option<string>): State {
    s.Put(s.Current().(points := Some(ps + [p]))).(mapping := PointLevel, last := last)
  }

  lemma PointScalar(s: State, ps: seq<DraftPoint>, p: DraftPoint, last: Option<string>, v: string)
    requires Reading(s)
    ensures Feed(AtPoint(s, ps, p, last), Scalar(v)) ==
            AtPoint(s, ps, if last == None then p else AssignPoint(p, KeyOf(last.value), v), Some(v))
  {
    hide KeyOf, AssignPoint;
    if last.Some? {
      assert (ps + [p])[|ps| := AssignPoint(p, KeyOf(last.value), v)] == ps + [AssignPoint(p, KeyOf(last.value), v)];
    }
  }

  lemma PointTexts()
    ensures PositionText(Normal) != "reverse" && Name(PositionKey) != "reverse"
  {
    assert PositionText(Normal)[0] != "reverse"[0] && Name(PositionKey)[0] != "reverse"[0];
  }

  lemma PointRead(s: State, p: Point)
    requires Reading(s) && s.sequence == Points && s.Current().points.Some?
    ensures Run(s, PrintPoint(p)) ==
            s.Put(s.Current().(points := Some(s.Current().points.value + [ParsedPoint(p)])))
             .(mapping := RouteLevel, last := None)
  {
    KeyOfName(Id);
    KeyOfName(PositionKey);
    PointTexts();
    var ps, text := s.Current().points.value, PositionText(p.position);
    var p0 := DraftPoint(None, Normal);
    var p1 := p0.(id := Some(p.id));
    var p2 := AssignPoint(p1, KeyOf(p.id), Name(PositionKey));
    var p3 := AssignPoint(p2, PositionKey, text);
    assert p3 == ParsedPoint(p);
    var t := AtPoint(s, ps, p0, None);
    assert Feed(s, MapStart) == t;
    PointScalar(s, ps, p0, None, Name(Id));
    PointScalar(s, ps, p0, Some(Name(Id)), p.id);
    PointScalar(s, ps, p1, Some(p.id), Name(PositionKey));
    PointScalar(s, ps, p2, Some(Name(PositionKey)), text);
    assert Feed(AtPoint(s, ps, p3, Some(text)), MapEnd)
        == s.Put(s.Current().(points := Some(ps + [p3]))).(mapping := RouteLevel, last := None);
    hide Feed, KeyOf, Name, AssignPoint, PositionText, ParsedPoint;
    RunFour(s, MapStart, Scalar(Name(Id)), Scalar(p.id), Scalar(Name(PositionKey)));
    RunTwo(AtPoint(s, ps, p2, Some(Name(PositionKey))), Scalar(text), MapEnd);
    RunAppend(s, [MapStart, Scalar(Name(Id)), Scalar(p.id), Scalar(Name(PositionKey))], [Scalar(text), MapEnd]);
    assert PrintPoint(p)
        == [MapStart, Scalar(Name(Id)), Scalar(p.id), Scalar(Name(PositionKey))] + [Scalar(text), MapEnd];
  }

  lemma {:induction false} PointsRead(s: State, ps: seq<Point>)
    requires Reading(s) && s.sequence == Points
    requires s.mapping == RouteLevel && s.last == None && s.Current().points == Some([])
    ensures Run(s, PrintPoints(ps)) == s.Put(s.Current().(points := Some(ParsedPoints(ps))))
    decreases |ps|
  {
    hide PrintPoint, Feed, ParsedPoint;
    if ps == [] {
      assert ParsedPoints(ps) == [];
    } else {
      var front, p := ps[..|ps| - 1], ps[|ps| - 1];
      PointsRead(s, front);
      RunAppend(s, PrintPoints(front), PrintPoint(p));
      PointRead(Run(s, PrintPoints(front)), p);
      assert ParsedPoints(front) + [ParsedPoint(p)] == ParsedPoints(ps);
    }
  }

  lemma RunTwo(s: State, a: Event, b: Event)
    requires !s.done && !s.crashed
    requires var s1 := Feed(s, a); !s1.done && !s1.crashed
    ensures Run(s, [a, b]) == Feed(Feed(s, a), b)
  {
    hide Feed;
    assert [a, b][1..] == [b] && [b][1..] == [];
    assert Run(Feed(s, a), [b]) == Feed(Feed(s, a), b);
  }

  lemma RunFour(s: State, a: Event, b: Event, c: Event, d: Event)
    requires !s.done && !s.crashed
    requires var s1 := Feed(s, a); var s2 := Feed(s1, b); var s3 := Feed(s2, c);
             !s1.done && !s1.crashed && !s2.done && !s2.crashed && !s3.done && !s3.crashed
    ensures Run(s, [a, b, c, d]) == Feed(Feed(Feed(Feed(s, a), b), c), d)
  {
    hide Feed;
    assert [a, b, c, d][1..] == [b, c, d] && [b, c, d][1..] == [c, d] && [c, d][1..] == [d] && [d][1..] == [];
    var s3 := Feed(Feed(Feed(s, a), b), c);
    assert Run(s3, [d]) == Feed(s3, d);
    assert Run(Feed(s, a), [b, c, d]) == Run(s3, [d]);
  }

  // ----- one member of a route after the other -----

  /** At route level, with the route so far and the preceding scalar. */
  function At(s: State, d: Draft, last: Option<string>): State {
    s.Put(d).(mapping := RouteLevel, sequence := Routes, last := last)
  }

  /** What a scalar does to the route: the preceding scalar says which member it is. */
  function Heard(d: Draft, last: Option<string>, v: string): Draft {
    match last
    case None => d
    case Some(key) => Assign(d, KeyOf(key), v)
  }

  lemma ScalarHeard(s: State, d: Draft, last: Option<string>, v: string)
    requires Reading(s)
    ensures Feed(At(s, d, last), Scalar(v)) == At(s, Heard(d, last, v), Some(v))
  {
    hide KeyOf, Assign;
  }

  lemma MemberRead(s: State, d: Draft, last: Option<string>, k: Key, v: string)
    requires Reading(s)
    ensures Run(At(s, d, last), PrintScalar(k, v)) == At(s, Assign(Heard(d, last, Name(k)), k, v), Some(v))
  {
    ScalarHeard(s, d, last, Name(k));
    ScalarHeard(s, Heard(d, last, Name(k)), Some(Name(k)), v);
    KeyOfName(k);
    hide Feed, KeyOf, Name, Assign;
    RunTwo(At(s, d, last), Scalar(Name(k)), Scalar(v));
  }

  function KeyFor(q: Sequence): Key {
    match q
    case Path => PathKey
    case Sections => SectionsKey
    case Points => PointsKey
    case Signals => SignalsKey
    case Conflicts => ConflictsKey
    case _ => TableKey
  }

  /** The brackets of a list, around anything that leaves the levels as they are. */
  lemma ListBrackets(s: State, d: Draft, last: Option<string>, q: Sequence, empty: Draft, full: Draft, items: seq<Event>)
    requires Reading(s) && q !in {NoSequence, Routes}
    requires empty == if q == Points then Heard(d, last, Name(KeyFor(q))).(points := Some([]))
                      else WithList(Heard(d, last, Name(KeyFor(q))), q, Some([]))
    requires Run(At(s, empty, None).(sequence := q), items) == At(s, full, None).(sequence := q)
    ensures Run(At(s, d, last), PrintList(KeyFor(q), items)) == At(s, full, None)
  {
    var key := Name(KeyFor(q));
    var heard := Heard(d, last, key);
    ScalarHeard(s, d, last, key);
    KeyOfName(KeyFor(q));
    SeqStartRead(s, heard, q, empty);
    assert Feed(At(s, full, None).(sequence := q), SeqEnd) == At(s, full, None);
    hide Feed, KeyOf, Name, Assign, Heard;
    RunTwo(At(s, d, last), Scalar(key), SeqStart);
    RunAppend(At(s, d, last), [Scalar(key), SeqStart], items + [SeqEnd]);
    RunAppend(At(s, empty, None).(sequence := q), items, [SeqEnd]);
    RunOne(At(s, full, None).(sequence := q), SeqEnd);
  }

  lemma RunOne(s: State, e: Event)
    requires !s.done && !s.crashed
    ensures Run(s, [e]) == Feed(s, e)
  {
    hide Feed;
    assert [e][1..] == [];
  }

  lemma SeqStartRead(s: State, heard: Draft, q: Sequence, empty: Draft)
    requires Reading(s) && q !in {NoSequence, Routes}
    requires empty == if q == Points then heard.(points := Some([])) else WithList(heard, q, Some([]))
    ensures Feed(At(s, heard, Some(Name(KeyFor(q)))), SeqStart) == At(s, empty, None).(sequence := q)
  {
    KeyOfName(KeyFor(q));
    hide KeyOf, Name;
  }

  lemma ListRead(s: State, d: Draft, last: Option<string>, q: Sequence, xs: seq<string>)
    requires Reading(s) && q in {Path, Sections, Signals, Conflicts}
    ensures Run(At(s, d, last), PrintList(KeyFor(q), PrintItems(xs)))
            == At(s, WithList(Heard(d, last, Name(KeyFor(q))), q, Some(xs)), None)
  {
    hide Feed, KeyOf, Name, Heard, PrintItems, Run, PrintList;
    var heard := Heard(d, last, Name(KeyFor(q)));
    var empty, full := WithList(heard, q, Some([])), WithList(heard, q, Some(xs));
    ItemsRead(At(s, empty, None).(sequence := q), xs);
    ListBrackets(s, d, last, q, empty, full, PrintItems(xs));
  }

  lemma PointListRead(s: State, d: Draft, last: Option<string>, ps: seq<Point>)
    requires Reading(s)
    ensures Run(At(s, d, last), PrintList(PointsKey, PrintPoints(ps)))
            == At(s, Heard(d, last, Name(PointsKey)).(points := Some(ParsedPoints(ps))), None)
  {
    hide Feed, KeyOf, Name, Heard, PrintPoints, Run, PrintList, ParsedPoints;
    var heard := Heard(d, last, Name(PointsKey));
    var empty, full := heard.(points := Some([])), heard.(points := Some(ParsedPoints(ps)));
    PointsRead(At(s, empty, None).(sequence := Points), ps);
    ListBrackets(s, d, last, Points, empty, full, PrintPoints(ps));
  }

  /** The route after its four leading scalars. */
  function Head(r: Route): Draft {
    var d1 := Assign(NO_DRAFT, Id, r.id);
    var d2 := Assign(Assign(d1, KeyOf(r.id), Name(Source)), Source, r.source);
    var d3 := Assign(Assign(d2, KeyOf(r.source), Name(Destination)), Destination, r.destination);
    Assign(Assign(d3, KeyOf(r.destination), Name(Orientation)), Orientation, r.orientation)
  }

  /** And after the key of the list that follows. */
  function Leading(r: Route): Draft {
    Assign(Head(r), KeyOf(r.orientation), Name(PathKey))
  }

  lemma LeadingSettles(r: Route)
    ensures Leading(r) == NO_DRAFT.(id := Some(SettledBefore(r, Id, 0, r.id)),
                                   source := Some(SettledBefore(r, Source, 1, r.source)),
                                   destination := Some(SettledBefore(r, Destination, 2, r.destination)),
                                   orientation := Some(SettledBefore(r, Orientation, 3, r.orientation)),
                                   length := Leading(r).length)
  {
    var d1 := Assign(NO_DRAFT, Id, r.id);
    var e1 := Assign(d1, KeyOf(r.id), Name(Source));
    var d2 := Assign(e1, Source, r.source);
    var e2 := Assign(d2, KeyOf(r.source), Name(Destination));
    var d3 := Assign(e2, Destination, r.destination);
    var e3 := Assign(d3, KeyOf(r.destination), Name(Orientation));
    var d4 := Assign(e3, Orientation, r.orientation);
    AssignFields(NO_DRAFT, Id, r.id);
    AssignFields(d1, KeyOf(r.id), Name(Source));
    AssignFields(e1, Source, r.source);
    AssignFields(d2, KeyOf(r.source), Name(Destination));
    AssignFields(e2, Destination, r.destination);
    AssignFields(d3, KeyOf(r.destination), Name(Orientation));
    AssignFields(e3, Orientation, r.orientation);
    AssignFields(d4, KeyOf(r.orientation), Name(PathKey));
    hide KeyOf, Name, Assign;
  }

  lemma AssignFields(d: Draft, k: Key, v: string)
    ensures var e := Assign(d, k, v);
            && e.id == (if k == Id then Some(v) else d.id)
            && e.source == (if k == Source then Some(v) else d.source)
            && e.destination == (if k == Destination then Some(v) else d.destination)
            && e.orientation == (if k == Orientation then Some(v) else d.orientation)
            && e == d.(id := e.id, source := e.source, destination := e.destination, orientation := e.orientation,
                       length := e.length)
  {
  }

  /** The route after its length, up to the key of the list that follows. */
  function WithLength(d: Draft, length: string): Draft {
    Assign(Assign(d, Length, length), KeyOf(length), Name(SignalsKey))
  }

  /** The whole route in reading order. */
  function InOrder(r: Route): Draft {
    WithLength(Leading(r).(path := Some(r.path), sections := Some(r.sections)), r.length)
      .(signals := Some(r.signals), points := Some(ParsedPoints(r.points)), conflicts := Some(r.conflicts))
  }

  lemma InOrderIsParsed(r: Route)
    ensures InOrder(r) == Parsed(r)
  {
    LeadingSettles(r);
    assert SettledBefore(r, Length, 4, r.length) == r.length;
    AssignFields(Leading(r).(path := Some(r.path), sections := Some(r.sections)), Length, r.length);
    hide KeyOf, Name, ParsedPoints, Leading, SettledBefore;
  }

  function PrintLists(r: Route): seq<Event> {
    PrintList(PathKey, PrintItems(r.path)) + (PrintList(SectionsKey, PrintItems(r.sections)) + PrintRest(r))
  }

  function PrintRest(r: Route): seq<Event> {
    (PrintScalar(Length, r.length) + PrintList(SignalsKey, PrintItems(r.signals)))
    + (PrintList(PointsKey, PrintPoints(r.points))
    + (PrintList(ConflictsKey, PrintItems(r.conflicts))
    + [MapEnd]))
  }

  lemma LeadingRead(s: State, r: Route)
    requires Reading(s)
    ensures Run(At(s, NO_DRAFT, None), PrintScalar(Id, r.id) + (PrintScalar(Source, r.source)
              + (PrintScalar(Destination, r.destination) + (PrintScalar(Orientation, r.orientation) + PrintLists(r)))))
            == Run(At(s, Head(r), Some(r.orientation)), PrintLists(r))
  {
    var d1 := Assign(NO_DRAFT, Id, r.id);
    var d2 := Assign(Assign(d1, KeyOf(r.id), Name(Source)), Source, r.source);
    var d3 := Assign(Assign(d2, KeyOf(r.source), Name(Destination)), Destination, r.destination);
    MemberRead(s, NO_DRAFT, None, Id, r.id);
    MemberRead(s, d1, Some(r.id), Source, r.source);
    MemberRead(s, d2, Some(r.source), Destination, r.destination);
    MemberRead(s, d3, Some(r.destination), Orientation, r.orientation);
    hide Run, KeyOf, Name, Assign, PrintScalar, PrintLists, At;
    var rest3 := PrintScalar(Orientation, r.orientation) + PrintLists(r);
    var rest2 := PrintScalar(Destination, r.destination) + rest3;
    var rest1 := PrintScalar(Source, r.source) + rest2;
    RunAppend(At(s, NO_DRAFT, None), PrintScalar(Id, r.id), rest1);
    RunAppend(At(s, d1, Some(r.id)), PrintScalar(Source, r.source), rest2);
    RunAppend(At(s, d2, Some(r.source)), PrintScalar(Destination, r.destination), rest3);
    RunAppend(At(s, d3, Some(r.destination)), PrintScalar(Orientation, r.orientation), PrintLists(r));
  }

  lemma ListsRead(s: State, d: Draft, r: Route)
    requires Reading(s)
    ensures var d' := Assign(d, KeyOf(r.orientation), Name(PathKey)).(path := Some(r.path), sections := Some(r.sections));
            Run(At(s, d, Some(r.orientation)), PrintLists(r)) == Run(At(s, d', None), PrintRest(r))
  {
    var d1 := Assign(d, KeyOf(r.orientation), Name(PathKey)).(path := Some(r.path));
    ListRead(s, d, Some(r.orientation), Path, r.path);
    ListRead(s, d1, None, Sections, r.sections);
    hide Run, KeyOf, Name, Assign, PrintList, PrintItems, PrintRest, At;
    var rest := PrintList(SectionsKey, PrintItems(r.sections)) + PrintRest(r);
    RunAppend(At(s, d, Some(r.orientation)), PrintList(PathKey, PrintItems(r.path)), rest);
    RunAppend(At(s, d1, None), PrintList(SectionsKey, PrintItems(r.sections)), PrintRest(r));
  }

  lemma RestRead(s: State, d: Draft, r: Route)
    requires Reading(s)
    ensures var d' := WithLength(d, r.length).(signals := Some(r.signals), points := Some(ParsedPoints(r.points)),
                                               conflicts := Some(r.conflicts));
            Run(At(s, d, None), PrintRest(r)) == Feed(At(s, d', None), MapEnd)
  {
    var d2 := WithLength(d, r.length).(signals := Some(r.signals));
    LengthRead(s, d, r);
    PointsAndConflictsRead(s, d2, r);
    hide Run, Feed, At, WithLength, PrintList, PrintItems, PrintPoints, PrintScalar, ParsedPoints;
    var rest := PrintList(PointsKey, PrintPoints(r.points)) + (PrintList(ConflictsKey, PrintItems(r.conflicts)) + [MapEnd]);
    RunAppend(At(s, d, None), PrintScalar(Length, r.length) + PrintList(SignalsKey, PrintItems(r.signals)), rest);
  }

  lemma PointsAndConflictsRead(s: State, d: Draft, r: Route)
    requires Reading(s)
    ensures Run(At(s, d, None), PrintList(PointsKey, PrintPoints(r.points))
                                + (PrintList(ConflictsKey, PrintItems(r.conflicts)) + [MapEnd]))
         == Feed(At(s, d.(points := Some(ParsedPoints(r.points)), conflicts := Some(r.conflicts)), None), MapEnd)
  {
    var d1 := d.(points := Some(ParsedPoints(r.points)));
    var d2 := d1.(conflicts := Some(r.conflicts));
    PointListRead(s, d, None, r.points);
    ListRead(s, d1, None, Conflicts, r.conflicts);
    RunOne(At(s, d2, None), MapEnd);
    hide Run, Feed, At, PrintList, PrintItems, PrintPoints, ParsedPoints, Name;
    var conflicts := PrintList(ConflictsKey, PrintItems(r.conflicts));
    RunAppend(At(s, d, None), PrintList(PointsKey, PrintPoints(r.points)), conflicts + [MapEnd]);
    RunAppend(At(s, d1, None), conflicts, [MapEnd]);
  }

  lemma LengthRead(s: State, d: Draft, r: Route)
    requires Reading(s)
    ensures Run(At(s, d, None), PrintScalar(Length, r.length) + PrintList(SignalsKey, PrintItems(r.signals)))
            == At(s, WithLength(d, r.length).(signals := Some(r.signals)), None)
  {
    var d1 := Assign(d, Length, r.length);
    MemberRead(s, d, None, Length, r.length);
    ListRead(s, d1, Some(r.length), Signals, r.signals);
    hide Run, KeyOf, Name, Assign, PrintList, PrintItems, PrintScalar, At;
    RunAppend(At(s, d, None), PrintScalar(Length, r.length), PrintList(SignalsKey, PrintItems(r.signals)));
  }

  /** One more route in the table, under its id. */
  function AddRoute(s: State, d: Draft): State
    requires d.id.Some? && s.table.Some?
  {
    var id, t := d.id.value, s.table.value;
    s.(mapping := Table, last := None, pool := s.pool + [d], table := Some(t[id := |s.pool|]),
       freed := if id in t then s.freed + {t[id]} else s.freed)
  }

  lemma RouteRead(s: State, r: Route)
    requires !s.done && !s.crashed && s.sequence == Routes && s.table.Some?
    ensures Run(s, PrintRoute(r)) == AddRoute(s, Parsed(r))
  {
    var base := s.(pool := s.pool + [NO_DRAFT]);
    var body := PrintRoute(r)[1..];
    hide *;
    RouteParts(r);
    RunOne(s, MapStart);
    RouteStarts(s);
    RunAppend(s, [MapStart], body);
    LeadingRead(base, r);
    ListsRead(base, Head(r), r);
    RestRead(base, Leading(r).(path := Some(r.path), sections := Some(r.sections)), r);
    InOrderIsParsed(r);
    RouteEnds(s, Parsed(r));
  }

  lemma RouteParts(r: Route)
    ensures PrintRoute(r) == [MapStart] + PrintRoute(r)[1..]
    ensures PrintRoute(r)[1..] ==
            PrintScalar(Id, r.id) + (PrintScalar(Source, r.source) + (PrintScalar(Destination, r.destination)
              + (PrintScalar(Orientation, r.orientation) + PrintLists(r))))
    ensures Leading(r) == Assign(Head(r), KeyOf(r.orientation), Name(PathKey))
    ensures Parsed(r).id.Some?
    ensures InOrder(r) == WithLength(Leading(r).(path := Some(r.path), sections := Some(r.sections)), r.length)
                          .(signals := Some(r.signals), points := Some(ParsedPoints(r.points)), conflicts := Some(r.conflicts))
  {
    hide PrintScalar, PrintList, PrintItems, PrintPoints, Leading, Settled, ParsedPoints, WithLength;
    assert Leading(r) == Assign(Head(r), KeyOf(r.orientation), Name(PathKey)) by { LeadingIs(r); }
  }

  lemma LeadingIs(r: Route)
    ensures Leading(r) == Assign(Head(r), KeyOf(r.orientation), Name(PathKey))
  {
  }

  lemma RouteStarts(s: State)
    requires s.sequence == Routes
    ensures Feed(s, MapStart) == At(s.(pool := s.pool + [NO_DRAFT]), NO_DRAFT, None)
    ensures Reading(s.(pool := s.pool + [NO_DRAFT])) <==> !s.done && !s.crashed
  {
  }

  lemma RouteEnds(s: State, d: Draft)
    requires s.sequence == Routes && s.table.Some? && d.id.Some?
    ensures Feed(At(s.(pool := s.pool + [NO_DRAFT]), d, None), MapEnd) == AddRoute(s, d)
  {
  }

  // ----- the whole table -----

  /** In the sequence of routes, before the first one. */
  const EMPTY := START.(sequence := Routes, table := Some(map[]))

  function AddRoutes(rs: seq<Route>): (s: State)
    ensures !s.done && !s.crashed && s.sequence == Routes && s.mapping == Table && s.last == None && s.table.Some?
  {
    if rs == [] then EMPTY else AddRoute(AddRoutes(rs[..|rs| - 1]), Parsed(rs[|rs| - 1]))
  }

  lemma {:induction false} RoutesRead(rs: seq<Route>)
    ensures Run(EMPTY, PrintRoutes(rs)) == AddRoutes(rs)
  {
    hide PrintRoute, Parsed, Feed;
    if rs != [] {
      var front, r := rs[..|rs| - 1], rs[|rs| - 1];
      RoutesRead(front);
      RunAppend(EMPTY, PrintRoutes(front), PrintRoute(r));
      RouteRead(AddRoutes(front), r);
    }
  }

  lemma TableKeyRead()
    ensures Feed(Feed(START, Scalar(Name(TableKey))), SeqStart) == EMPTY
    ensures var s := Feed(START, Scalar(Name(TableKey))); !s.done && !s.crashed
  {
    KeyOfName(TableKey);
    hide KeyOf, Name;
  }

  lemma TableStarts()
    ensures Run(START, [Marker, Marker, MapStart, Scalar(Name(TableKey)), SeqStart]) == EMPTY
  {
    var a, b := [Marker, Marker, MapStart, Scalar(Name(TableKey))], [SeqStart];
    TableKeyRead();
    assert Feed(START, Marker) == START && Feed(START, MapStart) == START;
    hide Feed, Name, KeyOf;
    RunFour(START, Marker, Marker, MapStart, Scalar(Name(TableKey)));
    RunOne(Feed(START, Scalar(Name(TableKey))), SeqStart);
    RunAppend(START, a, b);
    hide Run;
    assert a + b == [Marker, Marker, MapStart, Scalar(Name(TableKey)), SeqStart];
  }

  lemma TableEnds(s: State)
    requires !s.done && !s.crashed && s.sequence == Routes && s.mapping == Table && s.last == None
    ensures Run(s, [SeqEnd, MapEnd, Marker, StreamEnd]) == s.(sequence := NoSequence, done := true)
  {
    RunFour(s, SeqEnd, MapEnd, Marker, StreamEnd);
  }

  /** What the parser makes of a printed table. */
  lemma PrintedIsRead(rs: seq<Route>)
    ensures Run(START, Print(rs)) == AddRoutes(rs).(sequence := NoSequence, done := true)
  {
    var a, c := [Marker, Marker, MapStart, Scalar(Name(TableKey)), SeqStart], [SeqEnd, MapEnd, Marker, StreamEnd];
    assert Print(rs) == a + (PrintRoutes(rs) + c);
    hide *;
    TableStarts();
    RunAppend(START, a, PrintRoutes(rs) + c);
    RunAppend(EMPTY, PrintRoutes(rs), c);
    RoutesRead(rs);
    TableEnds(AddRoutes(rs));
  }

  function ParsedId(r: Route): string {
    Settled(r, Id, 0, r.id)
  }

  /** The table leads from each id to the last route that carries it; earlier ones with the same id are freed. */
  ghost predicate LastWins(rs: seq<Route>, t: map<string, nat>, freed: set<nat>) {
    && (forall id :: id in t ==> t[id] < |rs| && ParsedId(rs[t[id]]) == id)
    && (forall k :: 0 <= k < |rs| ==> ParsedId(rs[k]) in t && k <= t[ParsedId(rs[k])])
    && (forall k: nat :: k in freed <==> k < |rs| && ParsedId(rs[k]) in t && t[ParsedId(rs[k])] != k)
  }

  lemma {:induction false} RoutesAdded(rs: seq<Route>)
    ensures var s := AddRoutes(rs);
            && |s.pool| == |rs| && (forall k :: 0 <= k < |rs| ==> s.pool[k] == Parsed(rs[k]))
            && LastWins(rs, s.table.value, s.freed)
  {
    hide Parsed, LastWins, ParsedId;
    if rs == [] {
      NothingAdded();
    } else {
      var front, r := rs[..|rs| - 1], rs[|rs| - 1];
      RoutesAdded(front);
      FiledUnder(r);
      LaterWins(front, r, AddRoutes(front).table.value, AddRoutes(front).freed);
      assert front + [r] == rs;
    }
  }

  lemma NothingAdded()
    ensures LastWins([], map[], {})
  {
  }

  lemma FiledUnder(r: Route)
    ensures Parsed(r).id == Some(ParsedId(r))
  {
    hide Settled;
  }

  lemma LaterWins(rs: seq<Route>, r: Route, t: map<string, nat>, freed: set<nat>)
    requires LastWins(rs, t, freed)
    ensures var id := ParsedId(r);
            LastWins(rs + [r], t[id := |rs|], if id in t then freed + {t[id]} else freed)
  {
    hide ParsedId;
    assert (rs + [r])[|rs|] == r && forall k :: 0 <= k < |rs| ==> (rs + [r])[k] == rs[k];
  }

  function DraftOf(r: Route): Draft {
    Draft(Some(r.id), Some(r.source), Some(r.destination), Some(r.orientation), Some(r.length), Some(r.path),
          Some(r.sections), Some(PlainPoints(r.points)), Some(r.signals), Some(r.conflicts))
  }

  function PlainPoints(ps: seq<Point>): seq<DraftPoint> {
    seq(|ps|, i requires 0 <= i < |ps| => DraftPoint(Some(ps[i].id), ps[i].position))
  }

  const MEMBERS: seq<Key> := [Id, Source, Destination, Orientation, Length]

  /** The key printed after each of them. */
  const FOLLOWING: seq<Key> := [Source, Destination, Orientation, PathKey, SignalsKey]

  /** The scalar values of a route as they are printed. */
  function Values(r: Route): (vs: seq<string>)
    ensures |vs| == |MEMBERS| == |FOLLOWING| == 5
  {
    [r.id, r.source, r.destination, r.orientation, r.length]
  }

  /** The j-th value, at or after member i, is the name of member i, and no later value is. */
  predicate LastNaming(vs: seq<string>, i: nat, j: nat)
    requires i < 5 == |vs|
  {
    i <= j < 5 && vs[j] == Name(MEMBERS[i]) && forall k :: j < k < 5 ==> vs[k] != Name(MEMBERS[i])
  }

  /** Wherever the text of a value names a member already printed, that member's own value happens to be the key that
      comes next, looking at the last such text; and no point is named "id". */
  predicate Kept(r: Route) {
    && (forall i, j :: 0 <= i < 5 && 0 <= j < 5 && LastNaming(Values(r), i, j) ==> Values(r)[i] == Name(FOLLOWING[j]))
    && forall i :: 0 <= i < |r.points| ==> r.points[i].id != Name(Id)
  }

  lemma KeyIsName(s: string, k: Key)
    requires k != Other
    ensures KeyOf(s) == k <==> s == Name(k)
  {
    KeyOfName(k);
    NameOfKey(s);
    hide KeyOf, Name;
  }

  /** The last index below n that holds the text. */
  function LastIndex(vs: seq<string>, text: string, n: nat): (j: Option<nat>)
    requires n <= |vs|
    ensures j.Some? ==> j.value < n && vs[j.value] == text && forall k :: j.value < k < n ==> vs[k] != text
    ensures j.None? ==> forall k :: 0 <= k < n ==> vs[k] != text
  {
    if n == 0 then None else if vs[n - 1] == text then Some(n - 1) else LastIndex(vs, text, n - 1)
  }

  lemma SettledByLast(r: Route, i: nat)
    requires i < 5
    ensures var j := LastIndex(Values(r), Name(MEMBERS[i]), 5);
            Settled(r, MEMBERS[i], i, Values(r)[i])
            == if j.Some? && j.value >= i then Name(FOLLOWING[j.value]) else Values(r)[i]
  {
    var vs, k := Values(r), MEMBERS[i];
    KeyIsName(r.id, k);
    KeyIsName(r.source, k);
    KeyIsName(r.destination, k);
    KeyIsName(r.orientation, k);
    KeyIsName(r.length, k);
    hide KeyOf, Name;
    var j := LastIndex(vs, Name(k), 5);
    assert vs[0] == r.id && vs[1] == r.source && vs[2] == r.destination && vs[3] == r.orientation && vs[4] == r.length;
    hide LastIndex, Values;
  }

  lemma SettledIff(r: Route, i: nat)
    requires i < 5
    ensures Settled(r, MEMBERS[i], i, Values(r)[i]) == Values(r)[i]
       <==> forall j :: 0 <= j < 5 && LastNaming(Values(r), i, j) ==> Values(r)[i] == Name(FOLLOWING[j])
  {
    var j := LastIndex(Values(r), Name(MEMBERS[i]), 5);
    SettledByLast(r, i);
    hide Settled, Name, Values;
    if j.Some? && j.value >= i {
      assert LastNaming(Values(r), i, j.value);
    }
  }

  lemma PointKept(p: Point)
    ensures ParsedPoint(p) == DraftPoint(Some(p.id), p.position) <==> p.id != Name(Id)
  {
    KeyOfName(PositionKey);
    KeyIsName(p.id, Id);
    KeyIsName(p.id, PositionKey);
    hide KeyOf, Name;
  }

  lemma KeptIff(r: Route)
    ensures Parsed(r) == DraftOf(r) <==> Kept(r)
  {
    PointsKept(r.points);
    forall i | 0 <= i < 5
      ensures Settled(r, MEMBERS[i], i, Values(r)[i]) == Values(r)[i]
         <==> forall j :: 0 <= j < 5 && LastNaming(Values(r), i, j) ==> Values(r)[i] == Name(FOLLOWING[j])
    {
      SettledIff(r, i);
    }
    SettledAll(r);
    hide Settled, Name, ParsedPoints, PlainPoints, LastNaming, Values;
  }

  lemma SettledAll(r: Route)
    ensures (forall i :: 0 <= i < 5 ==> Settled(r, MEMBERS[i], i, Values(r)[i]) == Values(r)[i]) <==>
            (&& Settled(r, Id, 0, r.id) == r.id && Settled(r, Source, 1, r.source) == r.source
             && Settled(r, Destination, 2, r.destination) == r.destination
             && Settled(r, Orientation, 3, r.orientation) == r.orientation
             && Settled(r, Length, 4, r.length) == r.length)
  {
    hide Settled;
    var holds := seq(5, i requires 0 <= i < 5 => Settled(r, MEMBERS[i], i, Values(r)[i]) == Values(r)[i]);
    assert holds[0] && holds[1] && holds[2] && holds[3] && holds[4] <==> forall i :: 0 <= i < 5 ==> holds[i];
  }

  lemma PointsKept(ps: seq<Point>)
    ensures ParsedPoints(ps) == PlainPoints(ps) <==> forall i :: 0 <= i < |ps| ==> ps[i].id != Name(Id)
  {
    forall i | 0 <= i < |ps| ensures ParsedPoints(ps)[i] == PlainPoints(ps)[i] <==> ps[i].id != Name(Id) {
      PointKept(ps[i]);
    }
    hide Name, ParsedPoint;
  }

  /** The parser reads back a printed table, route by route and in order, exactly when every route is kept. */
  lemma ReadsBackIff(rs: seq<Route>)
    ensures var s := Run(START, Print(rs));
            && !s.crashed && |s.pool| == |rs|
            && ((forall k :: 0 <= k < |rs| ==> s.pool[k] == DraftOf(rs[k])) <==> forall k :: 0 <= k < |rs| ==> Kept(rs[k]))
  {
    PrintedIsRead(rs);
    RoutesAdded(rs);
    forall k | 0 <= k < |rs| ensures Parsed(rs[k]) == DraftOf(rs[k]) <==> Kept(rs[k]) {
      KeptIff(rs[k]);
    }
    hide Parsed, DraftOf, Kept, LastWins, Run, Print, AddRoutes;
  }

  predicate DistinctIds(rs: seq<Route>) {
    forall i, j :: 0 <= i < j < |rs| ==> rs[i].id != rs[j].id
  }

  /** Routes with distinct ids that are all kept come back as the table from ids to routes, nothing freed. */
  lemma RoundTrip(rs: seq<Route>)
    requires DistinctIds(rs) && forall k :: 0 <= k < |rs| ==> Kept(rs[k])
    ensures var s := Run(START, Print(rs));
            && s.table.Some? && s.freed == {}
            && (forall id :: id in s.table.value <==> exists k :: 0 <= k < |rs| && rs[k].id == id)
            && forall k :: 0 <= k < |rs| ==>
                 rs[k].id in s.table.value && s.table.value[rs[k].id] < |s.pool|
                 && s.pool[s.table.value[rs[k].id]] == DraftOf(rs[k])
  {
    PrintedIsRead(rs);
    RoutesAdded(rs);
    forall k | 0 <= k < |rs| ensures Parsed(rs[k]) == DraftOf(rs[k]) && ParsedId(rs[k]) == rs[k].id {
      KeptIff(rs[k]);
    }
    hide Parsed, DraftOf, Kept, Run, Print, AddRoutes, ParsedId;
    var t := AddRoutes(rs).table.value;
    assert forall k :: 0 <= k < |rs| ==> t[rs[k].id] == k;
  }

  predicate NamesNoMember(s: string) {
    forall i :: 0 <= i < |MEMBERS| ==> s != Name(MEMBERS[i])
  }

  /** In particular a route is kept when none of its scalar values is a key name. */
  lemma PlainRoutesAreKept(r: Route)
    requires forall j :: 0 <= j < |MEMBERS| ==> NamesNoMember(Values(r)[j])
    requires forall i :: 0 <= i < |r.points| ==> r.points[i].id != Name(Id)
    ensures Kept(r)
  {
    hide Name;
  }

  /** A source signal named "id" is taken for the key, and the route is filed under the key that follows. */
  lemma SourceNamedIdMisfiles(r: Route)
    requires r.source == Name(Id) && r.id != Name(Destination)
    requires NamesNoMember(r.destination) && NamesNoMember(r.orientation) && NamesNoMember(r.length)
    ensures !Kept(r)
    ensures Run(START, Print([r])).table == Some(map[Name(Destination) := 0])
  {
    var vs := Values(r);
    assert MEMBERS[0] == Id && LastNaming(vs, 0, 1) && FOLLOWING[1] == Destination;
    SettledByLast(r, 0);
    OneRouteFiled(r);
    hide Run, Print, Settled, Name;
  }

  lemma OneRouteFiled(r: Route)
    ensures Run(START, Print([r])).table == Some(map[ParsedId(r) := 0])
  {
    PrintedIsRead([r]);
    RoutesAdded([r]);
    hide Run, Print, AddRoutes, ParsedId;
    var t := AddRoutes([r]).table.value;
    assert [r][0] == r && forall id :: id in t <==> id == ParsedId(r);
    assert t == map[ParsedId(r) := 0];
  }

  // ----- the key names themselves -----

  /** At route level, the scalar after "id", "source", "destination", "orientation" or "length" becomes that member. */
  lemma TextsSetMembers(s: State, d: Draft, v: string)
    requires Reading(s)
    ensures Run(At(s, d, None), [Scalar("id"), Scalar(v)]) == At(s, d.(id := Some(v)), Some(v))
    ensures Run(At(s, d, None), [Scalar("source"), Scalar(v)]) == At(s, d.(source := Some(v)), Some(v))
    ensures Run(At(s, d, None), [Scalar("destination"), Scalar(v)]) == At(s, d.(destination := Some(v)), Some(v))
    ensures Run(At(s, d, None), [Scalar("orientation"), Scalar(v)]) == At(s, d.(orientation := Some(v)), Some(v))
    ensures Run(At(s, d, None), [Scalar("length"), Scalar(v)]) == At(s, d.(length := Some(v)), Some(v))
  {
    MemberRead(s, d, None, Id, v);
    MemberRead(s, d, None, Source, v);
    MemberRead(s, d, None, Destination, v);
    MemberRead(s, d, None, Orientation, v);
    MemberRead(s, d, None, Length, v);
    hide Run, At, KeyOf;
  }

  /** And a list after "path", "sections", "points", "signals" or "conflicts" opens that list. */
  lemma TextsOpenLists(s: State, d: Draft)
    requires Reading(s)
    ensures Run(At(s, d, None), [Scalar("path"), SeqStart]) == At(s, d.(path := Some([])), None).(sequence := Path)
    ensures Run(At(s, d, None), [Scalar("sections"), SeqStart])
         == At(s, d.(sections := Some([])), None).(sequence := Sections)
    ensures Run(At(s, d, None), [Scalar("points"), SeqStart]) == At(s, d.(points := Some([])), None).(sequence := Points)
    ensures Run(At(s, d, None), [Scalar("signals"), SeqStart])
         == At(s, d.(signals := Some([])), None).(sequence := Signals)
    ensures Run(At(s, d, None), [Scalar("conflicts"), SeqStart])
         == At(s, d.(conflicts := Some([])), None).(sequence := Conflicts)
  {
    ListTexts();
    EmptyLists(d);
    hide *;
    ListOpened(s, d, Path);
    ListOpened(s, d, Sections);
    ListOpened(s, d, Points);
    ListOpened(s, d, Signals);
    ListOpened(s, d, Conflicts);
  }

  lemma ListTexts()
    ensures Name(KeyFor(Path)) == "path" && Name(KeyFor(Sections)) == "sections" && Name(KeyFor(Points)) == "points"
    ensures Name(KeyFor(Signals)) == "signals" && Name(KeyFor(Conflicts)) == "conflicts"
  {
  }

  lemma EmptyLists(d: Draft)
    ensures WithList(d, Path, Some([])) == d.(path := Some([])) && WithList(d, Sections, Some([])) == d.(sections := Some([]))
    ensures WithList(d, Signals, Some([])) == d.(signals := Some([]))
    ensures WithList(d, Conflicts, Some([])) == d.(conflicts := Some([]))
  {
  }

  lemma ListOpened(s: State, d: Draft, q: Sequence)
    requires Reading(s) && q !in {NoSequence, Routes}
    ensures Run(At(s, d, None), [Scalar(Name(KeyFor(q))), SeqStart])
         == At(s, if q == Points then d.(points := Some([])) else WithList(d, q, Some([])), None).(sequence := q)
  {
    var key := Name(KeyFor(q));
    ScalarHeard(s, d, None, key);
    SeqStartRead(s, d, q, if q == Points then d.(points := Some([])) else WithList(d, q, Some([])));
    hide Feed, At, Name, KeyOf;
    RunTwo(At(s, d, None), Scalar(key), SeqStart);
  }

  /** In a point, "id" and "position" set its members; "reverse" is the one text for the reverse position. */
  lemma TextsSetPoints(s: State, ps: seq<DraftPoint>, p: DraftPoint, v: string)
    requires Reading(s)
    ensures Run(AtPoint(s, ps, p, None), [Scalar("id"), Scalar(v)]) == AtPoint(s, ps, p.(id := Some(v)), Some(v))
    ensures Run(AtPoint(s, ps, p, None), [Scalar("position"), Scalar(v)])
         == AtPoint(s, ps, p.(position := if v == "reverse" then Reverse else Normal), Some(v))
  {
    KeyOfName(Id);
    KeyOfName(PositionKey);
    PointScalar(s, ps, p, None, "id");
    PointScalar(s, ps, p, Some("id"), v);
    PointScalar(s, ps, p, None, "position");
    PointScalar(s, ps, p, Some("position"), v);
    hide Feed, AtPoint, KeyOf;
    RunTwo(AtPoint(s, ps, p, None), Scalar("id"), Scalar(v));
    RunTwo(AtPoint(s, ps, p, None), Scalar("position"), Scalar(v));
  }

  /** The printed form, text by text. */
  lemma PrintedTexts(r: Route)
    ensures PrintRoute(r) == [MapStart]
            + ([Scalar("id"), Scalar(r.id)]
            + ([Scalar("source"), Scalar(r.source)]
            + ([Scalar("destination"), Scalar(r.destination)]
            + ([Scalar("orientation"), Scalar(r.orientation)]
            + (([Scalar("path"), SeqStart] + PrintItems(r.path) + [SeqEnd])
            + (([Scalar("sections"), SeqStart] + PrintItems(r.sections) + [SeqEnd])
            + (([Scalar("length"), Scalar(r.length)] + ([Scalar("signals"), SeqStart] + PrintItems(r.signals) + [SeqEnd]))
            + (([Scalar("points"), SeqStart] + PrintPoints(r.points) + [SeqEnd])
            + (([Scalar("conflicts"), SeqStart] + PrintItems(r.conflicts) + [SeqEnd])
            + [MapEnd])))))))))
  {
    ScalarTexts(r.id, r.source, r.destination, r.orientation, r.length);
    ListsPrinted(PrintItems(r.path));
    ListsPrinted(PrintItems(r.sections));
    ListsPrinted(PrintItems(r.signals));
    ListsPrinted(PrintPoints(r.points));
    ListsPrinted(PrintItems(r.conflicts));
    hide PrintItems, PrintPoints, PrintScalar, PrintList, Name;
  }

  lemma ScalarTexts(id: string, source: string, destination: string, orientation: string, length: string)
    ensures PrintScalar(Id, id) == [Scalar("id"), Scalar(id)]
    ensures PrintScalar(Source, source) == [Scalar("source"), Scalar(source)]
    ensures PrintScalar(Destination, destination) == [Scalar("destination"), Scalar(destination)]
    ensures PrintScalar(Orientation, orientation) == [Scalar("orientation"), Scalar(orientation)]
    ensures PrintScalar(Length, length) == [Scalar("length"), Scalar(length)]
  {
  }

  lemma ListsPrinted(items: seq<Event>)
    ensures PrintList(PathKey, items) == [Scalar("path"), SeqStart] + items + [SeqEnd]
    ensures PrintList(SectionsKey, items) == [Scalar("sections"), SeqStart] + items + [SeqEnd]
    ensures PrintList(PointsKey, items) == [Scalar("points"), SeqStart] + items + [SeqEnd]
    ensures PrintList(SignalsKey, items) == [Scalar("signals"), SeqStart] + items + [SeqEnd]
    ensures PrintList(ConflictsKey, items) == [Scalar("conflicts"), SeqStart] + items + [SeqEnd]
  {
  }

  lemma PrintedItems(x: string, p: Point)
    ensures PrintItem(x) == [MapStart, Scalar("id"), Scalar(x), MapEnd]
    ensures PrintPoint(p) == [MapStart, Scalar("id"), Scalar(p.id), Scalar("position"),
                              Scalar(if p.position == Reverse then "reverse" else "normal"), MapEnd]
  {
  }

  lemma PrintedTable(rs: seq<Route>, r: Route)
    ensures Print(rs) == [Marker, Marker, MapStart, Scalar("interlocking-table"), SeqStart] + PrintRoutes(rs)
                         + [SeqEnd, MapEnd, Marker, StreamEnd]
    ensures PrintRoutes([]) == [] && PrintRoutes(rs + [r]) == PrintRoutes(rs) + PrintRoute(r)
  {
    hide PrintRoute;
    assert (rs + [r])[..|rs|] == rs;
  }

  /** Closing a level leads up one step, to the top at most. */
  lemma LevelsStepUp(m: Mapping, q: Sequence)
    ensures DecreaseMapping(m) == m <==> m == Table
    ensures DecreaseSequence(q) == q <==> q == NoSequence
    ensures m in {Segment, Block, PointLevel, Signal, Conflict} ==> DecreaseMapping(DecreaseMapping(m)) == Table
    ensures q in {Path, Sections, Points, Signals, Conflicts} ==> DecreaseSequence(DecreaseSequence(q)) == NoSequence
    ensures DecreaseMapping(m) in {Table, RouteLevel} && DecreaseSequence(q) in {NoSequence, Routes}
  {
  }
}
