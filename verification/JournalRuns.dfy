/** Runs of journal appends: any number of appenders, stale views, and crashes between any two file operations. */
module JournalRuns {
  import opened Wrappers
  import opened Journal

  /** An append under way: the records it was shown, and what it has done so far. */
  datatype Flight = Flight(view: seq<Record>, stage: Stage)
  datatype Stage = Viewed | Written(record: Record) | Leaving(record: Record)

  /** The directory, the records linked so far in order, the appends under way, and every identifier drawn. */
  datatype World = World(directory: Directory, journal: seq<Record>, flights: map<nat, Flight>, drawn: set<nat>)

  /**
   * One file operation of one appender. `Read` happens under a shared lock on whole files; `Link` fails when the
   * name exists; `Fault` is an error while writing; `Unlink` removes the temporary name; `Crash` can come anywhere.
   */
  datatype Event =
    | Read(appender: nat)
    | Create(appender: nat, request: Request)
    | Fault(appender: nat)
    | Link(appender: nat)
    | Unlink(appender: nat)
    | Crash(appender: nat)

  function Drawn(q: Request): set<nat> {
    {q.id, q.installation, q.incarnation}
  }

  /** Identifiers are fresh whenever they are drawn. */
  predicate Possible(w: World, e: Event) {
    e.Create? ==> Drawn(e.request) !! w.drawn
  }

  function Apply(h: Hash, w: World, e: Event): World {
    match e
    case Read(a) =>
      if a in w.flights then w else w.(flights := w.flights[a := Flight(w.journal, Viewed)])
    case Create(a, q) =>
      if a !in w.flights || !w.flights[a].stage.Viewed? then w
      else
        var record := Next(h, w.flights[a].view, q);
        if !Coherent(record) then w.(flights := w.flights - {a}, drawn := w.drawn + Drawn(q))
        else
          w.(flights := w.flights[a := w.flights[a].(stage := Written(record))],
             drawn := w.drawn + Drawn(q),
             directory := w.directory.(pending := w.directory.pending + {record.id}))
    case Fault(a) =>
      if a !in w.flights || !w.flights[a].stage.Written? then w
      else w.(flights := w.flights[a := w.flights[a].(stage := Leaving(w.flights[a].stage.record))])
    case Link(a) =>
      if a !in w.flights || !w.flights[a].stage.Written? then w else Linked(w, a)
    case Unlink(a) =>
      if a !in w.flights || !w.flights[a].stage.Leaving? then w
      else
        w.(flights := w.flights - {a},
           directory := w.directory.(pending := w.directory.pending - {w.flights[a].stage.record.id}))
    case Crash(a) => w.(flights := w.flights - {a})
  }

  function Linked(w: World, a: nat): World
    requires a in w.flights && w.flights[a].stage.Written?
  {
    var record := w.flights[a].stage.record;
    var left := w.(flights := w.flights[a := w.flights[a].(stage := Leaving(record))]);
    if record.sequence in w.directory.files then left
    else
      left.(directory := w.directory.(files := w.directory.files[record.sequence := Sound(record)]),
            journal := w.journal + [record])
  }

  // ---------------------------------------------------------------- the invariant

  /** The view is a stretch of the journal from its start, and what was written continues that view. */
  ghost predicate FlightOk(h: Hash, journal: seq<Record>, drawn: set<nat>, f: Flight) {
    && f.view <= journal
    && (f.stage.Written? ==>
          var record := f.stage.record;
          && Coherent(record) && record.sequence == |f.view| + 1
          && (f.view != [] ==> Links(h, f.view[|f.view| - 1], record))
          && record.incarnation in drawn
          && forall i | 0 <= i < |journal| :: journal[i].incarnation != record.incarnation)
  }

  ghost predicate Differ(f: Flight, g: Flight) {
    f.stage.Written? && g.stage.Written? ==> f.stage.record.incarnation != g.stage.record.incarnation
  }

  ghost predicate FlightsOk(h: Hash, journal: seq<Record>, drawn: set<nat>, flights: map<nat, Flight>) {
    && (forall a | a in flights :: FlightOk(h, journal, drawn, flights[a]))
    && forall a, b | a in flights && b in flights && a != b :: Differ(flights[a], flights[b])
  }

  ghost predicate FilesOk(h: Hash, directory: Directory, journal: seq<Record>, drawn: set<nat>) {
    && directory.strange == {}
    && directory.files == Filed(journal)
    && Chain(h, journal)
    && forall i | 0 <= i < |journal| :: journal[i].incarnation in drawn
  }

  ghost predicate Inv(h: Hash, w: World) {
    FilesOk(h, w.directory, w.journal, w.drawn) && FlightsOk(h, w.journal, w.drawn, w.flights)
  }

  function Start(): World {
    World(Directory(map[], {}, {}), [], map[], {})
  }

  lemma StartInv(h: Hash)
    ensures Inv(h, Start())
  {
  }

  /** A link succeeds exactly when the appender was shown the whole journal; a stale view loses and changes no file. */
  lemma LinkNeedsFreshView(h: Hash, w: World, a: nat)
    requires Inv(h, w) && a in w.flights && w.flights[a].stage.Written?
    ensures w.flights[a].view == w.journal <==> Linked(w, a).journal == w.journal + [w.flights[a].stage.record]
    ensures w.flights[a].view != w.journal <==> Linked(w, a).directory == w.directory
  {
    assert FlightOk(h, w.journal, w.drawn, w.flights[a]);
    var record := w.flights[a].stage.record;
    assert record.sequence in w.directory.files <==> |w.flights[a].view| < |w.journal|;
    if w.flights[a].view == w.journal {
      assert record.sequence in Linked(w, a).directory.files;
    }
  }

  /** A flight that holds no written record disturbs no other. */
  lemma Settle(h: Hash, journal: seq<Record>, drawn: set<nat>, flights: map<nat, Flight>, a: nat, f: Flight)
    requires FlightsOk(h, journal, drawn, flights) && f.view <= journal && !f.stage.Written?
    ensures FlightsOk(h, journal, drawn, flights[a := f])
  {
    var after := flights[a := f];
    forall b, c | b in after && c in after && b != c
      ensures Differ(after[b], after[c])
    {
      assert b != a && c != a ==> Differ(flights[b], flights[c]);
    }
  }

  lemma Depart(h: Hash, journal: seq<Record>, drawn: set<nat>, flights: map<nat, Flight>, a: nat)
    requires FlightsOk(h, journal, drawn, flights)
    ensures FlightsOk(h, journal, drawn, flights - {a})
  {
  }

  /** Drawing more identifiers disturbs nothing. */
  lemma DrawMore(h: Hash, w: World, more: set<nat>)
    requires Inv(h, w)
    ensures Inv(h, w.(drawn := w.drawn + more))
  {
    forall a | a in w.flights
      ensures FlightOk(h, w.journal, w.drawn + more, w.flights[a])
    {
      assert FlightOk(h, w.journal, w.drawn, w.flights[a]);
    }
  }

  /** A record with a fresh incarnation joins those being written. */
  lemma Join(h: Hash, w: World, a: nat, record: Record)
    requires Inv(h, w) && a in w.flights && record.incarnation !in w.drawn
    requires FlightOk(h, w.journal, w.drawn + {record.incarnation}, w.flights[a].(stage := Written(record)))
    ensures FlightsOk(h, w.journal, w.drawn + {record.incarnation},
                      w.flights[a := w.flights[a].(stage := Written(record))])
  {
    var drawn := w.drawn + {record.incarnation};
    DrawMore(h, w, {record.incarnation});
    var flights := w.flights[a := w.flights[a].(stage := Written(record))];
    forall b, c | b in flights && c in flights && b != c
      ensures Differ(flights[b], flights[c])
    {
      assert FlightOk(h, w.journal, w.drawn, w.flights[b]) && FlightOk(h, w.journal, w.drawn, w.flights[c]);
      assert Differ(w.flights[b], w.flights[c]);
    }
  }

  lemma CreateInv(h: Hash, w: World, a: nat, q: Request)
    requires Inv(h, w) && Possible(w, Create(a, q)) && a in w.flights && w.flights[a].stage.Viewed?
    ensures Inv(h, Apply(h, w, Create(a, q)))
  {
    var record := Next(h, w.flights[a].view, q);
    if Coherent(record) {
      assert FlightOk(h, w.journal, w.drawn, w.flights[a]);
      assert q.incarnation in Drawn(q);
      Join(h, w, a, record);
      var joined := w.(flights := w.flights[a := w.flights[a].(stage := Written(record))],
                       drawn := w.drawn + {q.incarnation});
      DrawMore(h, joined, Drawn(q));
      assert joined.drawn + Drawn(q) == w.drawn + Drawn(q);
    } else {
      Depart(h, w.journal, w.drawn, w.flights, a);
      DrawMore(h, w.(flights := w.flights - {a}), Drawn(q));
    }
  }

  lemma ChainGrows(h: Hash, rs: seq<Record>, record: Record)
    requires Chain(h, rs) && Coherent(record) && record.sequence == |rs| + 1
    requires rs != [] ==> Links(h, rs[|rs| - 1], record)
    requires forall i | 0 <= i < |rs| :: rs[i].incarnation != record.incarnation
    ensures Chain(h, rs + [record])
  {
    forall i | 0 < i < |rs + [record]|
      ensures Links(h, (rs + [record])[i - 1], (rs + [record])[i])
    {
      if i < |rs| {
        assert Links(h, rs[i - 1], rs[i]);
      }
    }
  }

  lemma FiledGrows(rs: seq<Record>, record: Record)
    ensures Filed(rs + [record]) == Filed(rs)[|rs| + 1 := Sound(record)]
  {
  }

  /** Linking one record leaves the others apart from the longer journal. */
  lemma OthersFollow(
    h: Hash, journal: seq<Record>, drawn: set<nat>, flights: map<nat, Flight>, a: nat, record: Record)
    requires FlightsOk(h, journal, drawn, flights) && a in flights && flights[a].stage == Written(record)
    ensures FlightsOk(h, journal + [record], drawn, flights[a := flights[a].(stage := Leaving(record))])
  {
    var after := flights[a := flights[a].(stage := Leaving(record))];
    forall b | b in after
      ensures FlightOk(h, journal + [record], drawn, after[b])
    {
      assert FlightOk(h, journal, drawn, flights[b]);
      assert b != a ==> Differ(flights[a], flights[b]);
    }
    forall b, c | b in after && c in after && b != c
      ensures Differ(after[b], after[c])
    {
      assert Differ(flights[b], flights[c]);
    }
  }

  lemma FilesFollow(h: Hash, directory: Directory, journal: seq<Record>, drawn: set<nat>, f: Flight)
    requires FilesOk(h, directory, journal, drawn) && FlightOk(h, journal, drawn, f)
    requires f.stage.Written? && f.view == journal
    ensures f.stage.record.sequence == |journal| + 1
    ensures FilesOk(h, directory.(files := directory.files[|journal| + 1 := Sound(f.stage.record)]),
                    journal + [f.stage.record], drawn)
  {
    ChainGrows(h, journal, f.stage.record);
    FiledGrows(journal, f.stage.record);
  }

  lemma LinkInv(h: Hash, w: World, a: nat)
    requires Inv(h, w) && a in w.flights && w.flights[a].stage.Written?
    ensures Inv(h, Linked(w, a))
  {
    var record := w.flights[a].stage.record;
    assert FlightOk(h, w.journal, w.drawn, w.flights[a]);
    if w.flights[a].view == w.journal {
      FilesFollow(h, w.directory, w.journal, w.drawn, w.flights[a]);
      OthersFollow(h, w.journal, w.drawn, w.flights, a, record);
    } else {
      LinkNeedsFreshView(h, w, a);
      Settle(h, w.journal, w.drawn, w.flights, a, w.flights[a].(stage := Leaving(record)));
    }
  }

  lemma ApplyInv(h: Hash, w: World, e: Event)
    requires Inv(h, w) && Possible(w, e)
    ensures Inv(h, Apply(h, w, e))
  {
    var a := e.appender;
    if Apply(h, w, e) != w {
      assert a in w.flights ==> FlightOk(h, w.journal, w.drawn, w.flights[a]);
      match e
      case Read(_) => Settle(h, w.journal, w.drawn, w.flights, a, Flight(w.journal, Viewed));
      case Create(_, q) => CreateInv(h, w, a, q);
      case Fault(_) =>
        Settle(h, w.journal, w.drawn, w.flights, a, w.flights[a].(stage := Leaving(w.flights[a].stage.record)));
      case Link(_) => LinkInv(h, w, a);
      case Unlink(_) => Depart(h, w.journal, w.drawn, w.flights, a);
      case Crash(_) => Depart(h, w.journal, w.drawn, w.flights, a);
    }
  }

  /** With nothing in between, the file operations of one appender add up to `append`. */
  lemma UndisturbedAppend(h: Hash, w: World, a: nat, q: Request)
    requires a !in w.flights && q.id !in w.directory.pending
    ensures var shown := Apply(h, w, Read(a));
      var created := Apply(h, shown, Create(a, q));
      var done := Apply(h, Apply(h, created, Link(a)), Unlink(a));
      done.directory == Appended(h, w.directory, w.journal, q).0 && done.flights == w.flights
  {
    var shown := Apply(h, w, Read(a));
    var created := Apply(h, shown, Create(a, q));
    assert shown.flights - {a} == w.flights;
    if Coherent(Next(h, w.journal, q)) {
      var linked := Apply(h, created, Link(a));
      assert linked.flights - {a} == w.flights;
      assert w.directory.pending + {q.id} - {q.id} == w.directory.pending;
    }
  }

  // ---------------------------------------------------------------- runs

  function Run(h: Hash, w: World, events: seq<Event>): World
    decreases |events|
  {
    if events == [] then w else Run(h, Apply(h, w, events[0]), events[1..])
  }

  ghost predicate PossibleRun(h: Hash, w: World, events: seq<Event>)
    decreases |events|
  {
    events == [] || (Possible(w, events[0]) && PossibleRun(h, Apply(h, w, events[0]), events[1..]))
  }

  lemma {:induction false} RunInv(h: Hash, w: World, events: seq<Event>)
    requires Inv(h, w) && PossibleRun(h, w, events)
    ensures Inv(h, Run(h, w, events))
    decreases |events|
  {
    if events != [] {
      ApplyInv(h, w, events[0]);
      RunInv(h, Apply(h, w, events[0]), events[1..]);
    }
  }

  lemma ApplyAppends(h: Hash, w: World, e: Event)
    ensures w.journal <= Apply(h, w, e).journal
    ensures forall k | k in w.directory.files ::
      k in Apply(h, w, e).directory.files && Apply(h, w, e).directory.files[k] == w.directory.files[k]
  {
  }

  /** No event alters or removes an earlier record. */
  lemma {:induction false} AppendOnly(h: Hash, w: World, events: seq<Event>)
    ensures w.journal <= Run(h, w, events).journal
    ensures forall k | k in w.directory.files ::
      k in Run(h, w, events).directory.files && Run(h, w, events).directory.files[k] == w.directory.files[k]
    decreases |events|
  {
    if events != [] {
      ApplyAppends(h, w, events[0]);
      AppendOnly(h, Apply(h, w, events[0]), events[1..]);
    }
  }

  /**
   * After any run, crashes included, the journal is accepted exactly when all its records name one database and
   * the directory has not filled with temporary files; up to 128 of those never matter.
   */
  lemma AcceptedExactlyWhen(h: Hash, events: seq<Event>)
    requires PossibleRun(h, Start(), events)
    ensures var w := Run(h, Start(), events);
      && (Readable(h, w.directory) <==>
            OneDatabase(w.journal) && |w.journal| + |w.directory.pending| <= 4224)
      && |w.journal| <= 4096
      && (OneDatabase(w.journal) && |w.directory.pending| <= 128 ==>
            Readable(h, w.directory))
  {
    StartInv(h);
    RunInv(h, Start(), events);
    var w := Run(h, Start(), events);
    FiledSize(w.journal);
    if w.journal != [] {
      assert Coherent(w.journal[|w.journal| - 1]);
    }
    HoldsExactlyWhen(h, w.journal);
  }

  lemma FiledSize(rs: seq<Record>)
    ensures |Filed(rs)| == |rs|
  {
    NumbersSize(|rs|);
    assert Filed(rs).Keys == Numbers(|rs|);
  }

  lemma {:induction false} NumbersSize(n: nat)
    ensures |Numbers(n)| == n
  {
    if n > 0 {
      NumbersSize(n - 1);
    }
  }

  lemma FiledInjective(a: seq<Record>, b: seq<Record>)
    requires Filed(a) == Filed(b)
    ensures a == b
  {
    FiledSize(a);
    FiledSize(b);
    forall i | 0 <= i < |a|
      ensures a[i] == b[i]
    {
      assert Filed(a)[i + 1] == Sound(a[i]);
      assert Filed(b)[i + 1] == Sound(b[i]);
    }
  }

  /**
   * The limit on entries is real: every crash between writing and linking leaves a temporary file, and once enough
   * have gathered even an empty journal is refused.
   */
  lemma {:induction false} CrashesLeaveFiles(h: Hash, w: World, bound: nat, n: nat) returns (events: seq<Event>)
    requires w.journal == [] && w.flights == map[]
    requires (forall k | k in w.drawn :: k < bound) && forall k | k in w.directory.pending :: k < bound
    ensures PossibleRun(h, w, events)
    ensures Run(h, w, events).journal == []
    ensures |Run(h, w, events).directory.pending| == |w.directory.pending| + n
    decreases n
  {
    if n == 0 {
      events := [];
    } else {
      var q := Request(bound, bound + 1, bound + 2, None, "cope", Initialize, "first", None, 0);
      assert Coherent(Next(h, [], q)) && Drawn(q) == {bound, bound + 1, bound + 2};
      var w1 := Apply(h, w, Read(0));
      var w2 := Apply(h, w1, Create(0, q));
      var w3 := Apply(h, w2, Crash(0));
      assert w3.flights == map[] && w3.directory.pending == w.directory.pending + {bound};
      assert w3.drawn == w.drawn + {bound, bound + 1, bound + 2};
      var rest := CrashesLeaveFiles(h, w3, bound + 3, n - 1);
      RunStep(h, w2, Crash(0), rest);
      RunStep(h, w1, Create(0, q), [Crash(0)] + rest);
      RunStep(h, w, Read(0), [Create(0, q)] + ([Crash(0)] + rest));
      events := [Read(0)] + ([Create(0, q)] + ([Crash(0)] + rest));
    }
  }

  lemma RunStep(h: Hash, w: World, e: Event, rest: seq<Event>)
    ensures Run(h, w, [e] + rest) == Run(h, Apply(h, w, e), rest)
    ensures PossibleRun(h, w, [e] + rest) <==> Possible(w, e) && PossibleRun(h, Apply(h, w, e), rest)
  {
    assert ([e] + rest)[1..] == rest;
  }

  lemma LeftoversCanBlockTheJournal(h: Hash)
    ensures exists events ::
      (PossibleRun(h, Start(), events)
       && Run(h, Start(), events).journal == []
       && !Readable(h, Run(h, Start(), events).directory))
  {
    var events := CrashesLeaveFiles(h, Start(), 0, MAX_ENTRIES + 1);
    assert |Run(h, Start(), events).directory.pending| == MAX_ENTRIES + 1;
  }

  // ---------------------------------------------------------------- one database

  /**
   * `append` alone does not compare databases: after an undisturbed append to an accepted journal the directory is
   * accepted exactly when the journal was empty or the record names the same database as the last one.
   */
  lemma AppendedIsReadableExactlyWhen(h: Hash, d: Directory, rs: seq<Record>, q: Request)
    requires Accepted(h, rs) && d.files == Filed(rs) && d.strange == {} && Entries(d) < MAX_ENTRIES
    requires Coherent(Next(h, rs, q)) && forall i | 0 <= i < |rs| :: rs[i].incarnation != q.incarnation
    ensures Appended(h, d, rs, q).1 == Ok(Next(h, rs, q))
    ensures Readable(h, Appended(h, d, rs, q).0) <==> rs == [] || q.database == rs[|rs| - 1].database
  {
    AppendedDirectory(h, d, rs, q);
    ChainGrows(h, rs, Next(h, rs, q));
    HoldsExactlyWhen(h, rs + [Next(h, rs, q)]);
    LastDatabase(rs, Next(h, rs, q));
  }

  function FirstRecord(): Record {
    Record(1, 2, 1, None, 3, None, "a", Initialize, "first", None, 0)
  }

  function ForeignRequest(): Request {
    Request(4, 2, 5, Some(3), "b", Restore, "moved", Some(seq(64, _ => '0')), 1)
  }

  /** So an append can make a good journal unreadable: one record of database `a`, and a restore that names `b`. */
  lemma AppendCanSpoilTheJournal(h: Hash)
    ensures var d := Directory(Filed([FirstRecord()]), {}, {});
      var (after, r) := Appended(h, d, [FirstRecord()], ForeignRequest());
      Readable(h, d) && r.Ok? && !Readable(h, after)
  {
    var rs := [FirstRecord()];
    var d := Directory(Filed(rs), {}, {});
    assert Accepted(h, rs);
    FiledSize(rs);
    assert IsDigest(seq(64, _ => '0'));
    AppendedIsReadableExactlyWhen(h, d, rs, ForeignRequest());
  }

  lemma AppendedDirectory(h: Hash, d: Directory, rs: seq<Record>, q: Request)
    requires d.files == Filed(rs) && Coherent(Next(h, rs, q))
    ensures Appended(h, d, rs, q) == (d.(files := Filed(rs + [Next(h, rs, q)])), Ok(Next(h, rs, q)))
    ensures Entries(Appended(h, d, rs, q).0) == Entries(d) + 1
  {
    FiledGrows(rs, Next(h, rs, q));
    FiledSize(rs);
    FiledSize(rs + [Next(h, rs, q)]);
  }

  lemma LastDatabase(rs: seq<Record>, record: Record)
    requires OneDatabase(rs)
    ensures OneDatabase(rs + [record]) <==> rs == [] || record.database == rs[|rs| - 1].database
  {
    var all := rs + [record];
    assert rs != [] ==> all[|rs| - 1] == rs[|rs| - 1] && all[|rs|] == record;
  }

  lemma HoldsExactlyWhen(h: Hash, rs: seq<Record>)
    requires Chain(h, rs)
    ensures HoldsJournal(h, Filed(rs)) <==> OneDatabase(rs)
  {
    if HoldsJournal(h, Filed(rs)) {
      var found :| Accepted(h, found) && Filed(rs) == Filed(found);
      FiledInjective(found, rs);
    }
    if OneDatabase(rs) {
      assert Accepted(h, rs);
    }
  }

  /** The caller's check: a record names the database of the last record it was shown. */
  ghost predicate Guarded(w: World, e: Event) {
    e.Create? && e.appender in w.flights && w.flights[e.appender].view != [] ==>
      var view := w.flights[e.appender].view;
      e.request.database == view[|view| - 1].database
  }

  ghost predicate GuardedRun(h: Hash, w: World, events: seq<Event>)
    decreases |events|
  {
    events == [] || (Guarded(w, events[0]) && GuardedRun(h, Apply(h, w, events[0]), events[1..]))
  }

  ghost predicate NamesItsDatabase(f: Flight) {
    f.stage.Written? && f.view != [] ==> f.stage.record.database == f.view[|f.view| - 1].database
  }

  ghost predicate SameDatabase(w: World) {
    OneDatabase(w.journal) && forall a | a in w.flights :: NamesItsDatabase(w.flights[a])
  }

  lemma GuardedLink(h: Hash, w: World, a: nat)
    requires Inv(h, w) && SameDatabase(w) && a in w.flights && w.flights[a].stage.Written?
    ensures OneDatabase(Linked(w, a).journal)
  {
    LinkNeedsFreshView(h, w, a);
    assert NamesItsDatabase(w.flights[a]);
    if w.flights[a].view == w.journal {
      LastDatabase(w.journal, w.flights[a].stage.record);
    }
  }

  lemma GuardedStep(h: Hash, w: World, e: Event)
    requires Inv(h, w) && SameDatabase(w) && Guarded(w, e)
    ensures SameDatabase(Apply(h, w, e))
  {
    if e.Link? && e.appender in w.flights && w.flights[e.appender].stage.Written? {
      GuardedLink(h, w, e.appender);
    }
    var after := Apply(h, w, e);
    forall b | b in after.flights
      ensures NamesItsDatabase(after.flights[b])
    {
      if b != e.appender {
        assert NamesItsDatabase(w.flights[b]);
      }
    }
  }

  /** With the caller's check the journal keeps to one database, even when two appenders start from nothing. */
  lemma {:induction false} GuardedKeepsOneDatabase(h: Hash, w: World, events: seq<Event>)
    requires Inv(h, w) && SameDatabase(w) && PossibleRun(h, w, events) && GuardedRun(h, w, events)
    ensures SameDatabase(Run(h, w, events))
    decreases |events|
  {
    if events != [] {
      GuardedStep(h, w, events[0]);
      ApplyInv(h, w, events[0]);
      GuardedKeepsOneDatabase(h, Apply(h, w, events[0]), events[1..]);
    }
  }

  // ---------------------------------------------------------------- what an accepted journal says

  /** Any accepted journal: numbered 1 to n, one installation, one database, no incarnation twice. */
  lemma {:induction false} AcceptedIsUniform(h: Hash, rs: seq<Record>, i: nat)
    requires Accepted(h, rs) && i < |rs|
    ensures rs[i].sequence == i + 1 <= MAX_SEQUENCE
    ensures rs[i].installation == rs[0].installation && rs[i].database == rs[0].database
    ensures forall j | 0 <= j < |rs| && rs[j].incarnation == rs[i].incarnation :: j == i
    ensures i > 0 ==> rs[i].action.Restore? && rs[i].evidence.Some?
  {
    assert Coherent(rs[i]);
    if i > 0 {
      AcceptedIsUniform(h, rs, i - 1);
      assert Links(h, rs[i - 1], rs[i]);
    }
  }

  /** One record by itself, as the reader and the writer check it. */
  ghost predicate Sane(r: Record) {
    && 1 <= r.sequence <= 4096
    && 1 <= |r.database| <= 100 && 1 <= |r.reason| <= 500
    && (r.evidence.Some? ==> IsDigest(r.evidence.value))
    && (r.action == Restore ==> r.evidence.Some?)
    && (r.previousDigest.None? <==> r.sequence == 1)
    && (r.action == Initialize ==> r.sequence == 1 && r.previousIncarnation.None?)
  }

  /**
   * Which lists of records are accepted: sane records numbered from 1, of one installation and database, each naming
   * digest and incarnation of the one before, with no incarnation twice.
   */
  lemma AcceptedExactlyMeans(h: Hash, rs: seq<Record>)
    ensures Accepted(h, rs) <==>
      && (forall i | 0 <= i < |rs| :: Sane(rs[i]) && rs[i].sequence == i + 1)
      && (forall i | 0 < i < |rs| ::
            && rs[i].installation == rs[i - 1].installation && rs[i].database == rs[i - 1].database
            && rs[i].previousDigest == Some(h(rs[i - 1]))
            && rs[i].previousIncarnation == Some(rs[i - 1].incarnation))
      && forall i, j | 0 <= i < j < |rs| :: rs[i].incarnation != rs[j].incarnation
  {
    assert forall i | 0 <= i < |rs| :: Coherent(rs[i]) <==> Sane(rs[i]);
    assert forall i | 0 < i < |rs| ::
        Links(h, rs[i - 1], rs[i]) <==>
          && rs[i].installation == rs[i - 1].installation && rs[i].previousDigest == Some(h(rs[i - 1]))
          && rs[i].previousIncarnation == Some(rs[i - 1].incarnation);
  }

  /** The record an append writes: the next number, the caller's words, and a link to the last record it was shown. */
  lemma AppendWritesTheRequest(h: Hash, view: seq<Record>, q: Request)
    ensures var r := Next(h, view, q);
      && r.id == q.id && r.incarnation == q.incarnation && r.database == q.database && r.action == q.action
      && r.reason == q.reason && r.evidence == q.evidence && r.createdAt == q.now && r.sequence == |view| + 1
      && (view == [] ==>
            && r.installation == q.installation && r.previousDigest.None?
            && r.previousIncarnation == q.previousIncarnation)
      && (view != [] ==>
            var last := view[|view| - 1];
            && r.installation == last.installation && r.previousDigest == Some(h(last))
            && r.previousIncarnation == Some(last.incarnation))
  {
  }

  /** When an undisturbed append succeeds: its record is sane and nobody has taken the number; then it is filed. */
  lemma AppendedExactlyWhen(h: Hash, d: Directory, view: seq<Record>, q: Request)
    ensures var (after, r) := Appended(h, d, view, q);
      && (r.Ok? <==> Sane(Next(h, view, q)) && |view| + 1 !in d.files)
      && (r == Error(Exists) <==> Sane(Next(h, view, q)) && |view| + 1 in d.files)
      && (r == Error(Invalid) <==> !Sane(Next(h, view, q)))
      && (r.Error? ==> after == d)
      && (r.Ok? ==>
            r.value == Next(h, view, q) && after == d.(files := d.files[|view| + 1 := Sound(r.value)]))
  {
    assert Coherent(Next(h, view, q)) <==> Sane(Next(h, view, q));
  }

  /** An appender that failed to write can no longer link: only its temporary file is still to be removed. */
  lemma FaultedCannotLink(h: Hash, w: World, a: nat)
    requires a in w.flights && w.flights[a].stage.Written?
    ensures var faulted := Apply(h, w, Fault(a));
      && faulted.journal == w.journal && faulted.directory == w.directory
      && Apply(h, faulted, Link(a)) == faulted
      && Apply(h, faulted, Unlink(a)).directory ==
           w.directory.(pending := w.directory.pending - {w.flights[a].stage.record.id})
      && a !in Apply(h, faulted, Unlink(a)).flights
  {
  }

  /** A link puts the written record under its number, if the number is free, and last in the journal. */
  lemma LinkFilesTheRecord(h: Hash, w: World, a: nat)
    requires a in w.flights && w.flights[a].stage.Written?
    ensures var r, after := w.flights[a].stage.record, Apply(h, w, Link(a));
      && after.directory.pending == w.directory.pending
      && (r.sequence in w.directory.files ==>
            after.directory.files == w.directory.files && after.journal == w.journal)
      && (r.sequence !in w.directory.files ==>
            && after.directory.files == w.directory.files[r.sequence := Sound(r)]
            && after.journal == w.journal + [r])
  {
  }

  /** Two different records with one digest. */
  ghost predicate Collision(h: Hash, r: Record, s: Record) {
    r != s && h(r) == h(s)
  }

  ghost predicate Collided(h: Hash, a: seq<Record>, b: seq<Record>) {
    exists i, j :: 0 <= i < |a| && 0 <= j < |b| && Collision(h, a[i], b[j])
  }

  lemma {:induction false} DigestFixesPrefix(h: Hash, a: seq<Record>, b: seq<Record>, k: nat)
    requires Chain(h, a) && Chain(h, b) && k < |a| && k < |b| && h(a[k]) == h(b[k])
    ensures a[..k + 1] == b[..k + 1] || Collided(h, a, b)
  {
    if a[k] != b[k] {
      assert Collision(h, a[k], b[k]);
    } else {
      if k > 0 {
        SameBefore(h, a, b, k);
        DigestFixesPrefix(h, a, b, k - 1);
      }
      if a[..k] == b[..k] {
        SameFront(a, b, k);
      }
    }
  }

  /** Equal records name equal digests of the ones before them. */
  lemma SameBefore(h: Hash, a: seq<Record>, b: seq<Record>, k: nat)
    requires Chain(h, a) && Chain(h, b) && 0 < k < |a| && k < |b| && a[k] == b[k]
    ensures h(a[k - 1]) == h(b[k - 1])
  {
    assert Links(h, a[k - 1], a[k]) && Links(h, b[k - 1], b[k]);
  }

  lemma SameFront(a: seq<Record>, b: seq<Record>, k: nat)
    requires k < |a| && k < |b| && a[k] == b[k] && a[..k] == b[..k]
    ensures a[..k + 1] == b[..k + 1]
  {
    assert a[..k + 1] == a[..k] + [a[k]] && b[..k + 1] == b[..k] + [b[k]];
  }

  /**
   * The digest of the last record fixes the whole journal: two accepted journals with equal head digests are the
   * same record by record, unless the digest itself has collided on two of their records.
   */
  lemma HeadDigestFixesTheJournal(h: Hash, a: seq<Record>, b: seq<Record>)
    requires Accepted(h, a) && Accepted(h, b) && a != [] && b != []
    requires h(a[|a| - 1]) == h(b[|b| - 1])
    ensures a == b || Collided(h, a, b)
  {
    var x, y := |a| - 1, |b| - 1;
    if a[x] != b[y] {
      assert Collision(h, a[x], b[y]);
    } else {
      assert a[x].sequence == b[y].sequence;
      DigestFixesPrefix(h, a, b, x);
      assert a[..x + 1] == a && b[..y + 1] == b;
    }
  }
}
