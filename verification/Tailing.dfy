/** Tailing `access.log`: window state and offset commit together, counters commit line by line. */
module Tailing {
  import opened Wrappers

  /** A log line; `client` is empty when no client's event can be parsed from it. */
  datatype Line = Line(client: string, event: string)

  datatype Log = Log(inode: nat, lines: seq<Line>)

  /** What one run finds: the clients it knows, those still in the database, whether alerts are on, the line at which
      a database write fails, and whether the final save works. */
  datatype Circumstances = Circumstances(known: set<string>, foreign: bool, present: set<string>, alerts: bool,
                                         failAt: Option<nat>, saves: bool)

  /** A line that is recorded in the database. */
  predicate Recorded(l: Line, c: Circumstances) {
    l.client != "" && l.client in c.known && l.client in c.present
  }

  /** A line that reaches the database at all; one of a removed client is turned away there. */
  predicate Written(l: Line, c: Circumstances) {
    l.client != "" && l.client in c.known
  }

  /** A line that a successful run has passed, and whether it went into the windows. */
  datatype Passed = Passed(line: Line, counted: bool, windowed: bool)

  function Pass(l: Line, c: Circumstances): Passed {
    Passed(l, Recorded(l, c), Recorded(l, c) && c.alerts)
  }

  function PassAll(lines: seq<Line>, c: Circumstances): (r: seq<Passed>)
    ensures |r| == |lines|
    ensures forall k | 0 <= k < |lines| :: r[k] == Pass(lines[k], c)
  {
    seq(|lines|, k requires 0 <= k < |lines| => Pass(lines[k], c))
  }

  /** The windows after the given lines. */
  function Fold<W>(step: (W, Line) -> W, w: W, passed: seq<Passed>): W {
    if passed == [] then w
    else
      var last := passed[|passed| - 1];
      var before := Fold(step, w, passed[..|passed| - 1]);
      if last.windowed then step(before, last.line) else before
  }

  lemma {:induction false} FoldConcat<W>(step: (W, Line) -> W, w: W, a: seq<Passed>, b: seq<Passed>)
    ensures Fold(step, w, a + b) == Fold(step, Fold(step, w, a), b)
  {
    if b == [] {
      assert a + b == a;
    } else {
      assert (a + b)[..|a + b| - 1] == a + b[..|b| - 1];
      FoldConcat(step, w, a, b[..|b| - 1]);
    }
  }

  /** How many of the lines count for a client. */
  function Count(passed: seq<Passed>, client: string): nat {
    if passed == [] then 0
    else Count(passed[..|passed| - 1], client)
         + (if passed[|passed| - 1].counted && passed[|passed| - 1].line.client == client then 1 else 0)
  }

  lemma {:induction false} CountConcat(a: seq<Passed>, b: seq<Passed>, client: string)
    ensures Count(a + b, client) == Count(a, client) + Count(b, client)
  {
    if b == [] {
      assert a + b == a;
    } else {
      assert (a + b)[..|a + b| - 1] == a + b[..|b| - 1];
      CountConcat(a, b[..|b| - 1], client);
    }
  }

  function Counter(counters: map<string, nat>, client: string): nat {
    if client in counters then counters[client] else 0
  }

  /** Where a run starts to read: at 0 for another file and for one that has become shorter. */
  function StartOffset(inode: Option<nat>, offset: nat, log: Log): (start: nat)
    ensures start <= |log.lines|
  {
    if inode == Some(log.inode) && |log.lines| >= offset then offset else 0
  }

  /** The line at which the run breaks off; the number of lines when it does not. */
  function BreakAt(lines: seq<Line>, c: Circumstances): (k: nat)
    ensures k <= |lines|
  {
    if c.failAt.Some? && c.failAt.value < |lines| && Written(lines[c.failAt.value], c) then c.failAt.value else |lines|
  }

  predicate Completes(lines: seq<Line>, c: Circumstances) {
    BreakAt(lines, c) == |lines| && c.saves
  }

  /** The activity part of the database, as a value. */
  datatype Stored<W> = Stored(inode: Option<nat>, offset: nat, windows: W, counters: map<string, nat>)

  /** The lines that a run reads. */
  function Unread<W>(s: Stored<W>, log: Log): seq<Line> {
    log.lines[StartOffset(s.inode, s.offset, log)..]
  }

  predicate Skips(c: Circumstances) {
    c.known == {} && !c.foreign
  }

  /** What one run makes of the stored state: counters up to where it breaks off; offset and windows all or nothing. */
  ghost predicate Synced<W>(s: Stored<W>, s': Stored<W>, log: Log, c: Circumstances, step: (W, Line) -> W) {
    var lines := Unread(s, log);
    if Skips(c) then s' == s
    else
      && (forall n :: Counter(s'.counters, n) == Counter(s.counters, n) + Count(PassAll(lines[..BreakAt(lines, c)], c), n))
      && if Completes(lines, c)
         then s' == Stored(Some(log.inode), |log.lines|, Fold(step, s.windows, PassAll(lines, c)), s'.counters)
         else s' == s.(counters := s'.counters)
  }

  /** The activity part of the database. */
  class Store<W> {
    var inode: Option<nat>
    var offset: nat
    var windows: W
    var counters: map<string, nat>

    constructor (windows: W)
      ensures inode == None && offset == 0 && this.windows == windows && counters == map[]
    {
      inode, offset, this.windows, counters := None, 0, windows, map[];
    }

    function Value(): Stored<W>
      reads this
    {
      Stored(inode, offset, windows, counters)
    }

    /** One event in one transaction; false when its client is not in the database. */
    method RecordEvent(l: Line, c: Circumstances) returns (stored: bool)
      modifies this`counters
      ensures stored <==> l.client in c.present
      ensures forall n :: Counter(counters, n) == Counter(old(counters), n) + (if stored && n == l.client then 1 else 0)
    {
      stored := l.client in c.present;
      if stored {
        counters := counters[l.client := Counter(counters, l.client) + 1];
      }
    }
  }

  /** What the next line adds to the windows and to the counters. */
  lemma PassOneMore<W>(lines: seq<Line>, k: nat, c: Circumstances, step: (W, Line) -> W, w: W)
    requires k < |lines|
    ensures var before, after, p := PassAll(lines[..k], c), PassAll(lines[..k + 1], c), Pass(lines[k], c);
            && Fold(step, w, after) == (if p.windowed then step(Fold(step, w, before), p.line) else Fold(step, w, before))
            && forall n :: Count(after, n) == Count(before, n) + if p.counted && p.line.client == n then 1 else 0
  {
    assert PassAll(lines[..k + 1], c)[..k] == PassAll(lines[..k], c);
  }

  /** `sync_activity`. */
  method SyncActivity<W>(store: Store<W>, log: Log, step: (W, Line) -> W, c: Circumstances) returns (ok: bool)
    modifies store
    ensures Synced(old(store.Value()), store.Value(), log, c, step)
    ensures ok <==> Skips(c) || Completes(Unread(old(store.Value()), log), c)
  {
    if Skips(c) {
      return true;
    }
    var windows := store.windows;
    var lines := log.lines[StartOffset(store.inode, store.offset, log)..];
    for k := 0 to |lines|
      invariant BreakAt(lines, c) >= k
      invariant windows == Fold(step, store.windows, PassAll(lines[..k], c))
      invariant forall n :: Counter(store.counters, n)
                            == Counter(old(store.counters), n) + Count(PassAll(lines[..k], c), n)
      invariant store.inode == old(store.inode) && store.offset == old(store.offset) && store.windows == old(store.windows)
    {
      var l := lines[k];
      PassOneMore(lines, k, c, step, store.windows);
      if Written(l, c) {
        if c.failAt == Some(k) {
          return false;
        }
        var stored := store.RecordEvent(l, c);
        if stored && c.alerts {
          windows := step(windows, l);
        }
      }
    }
    assert lines[..|lines|] == lines;
    if !c.saves {
      return false;
    }
    store.inode, store.offset, store.windows := Some(log.inode), |log.lines|, windows;
    ok := true;
  }

  // ---- runs of appends, syncs, rotations and truncations ----

  /** The log file, what is stored about it, and the lines that successful runs have passed so far: those of earlier
      contents, then those of the present ones. Contents are unseen until a run has read them to the end. */
  datatype World<W> = World(log: Log, stored: Stored<W>, unseen: bool, earlier: seq<Passed>, current: seq<Passed>)

  datatype Action = Append(lines: seq<Line>) | Sync(c: Circumstances) | Rotate(inode: nat) | Truncate(contents: seq<Line>)

  /** The file begins anew, under an inode that may have been used before. */
  function Begun<W>(w: World<W>, log: Log): World<W> {
    w.(log := log, unseen := true, earlier := w.earlier + w.current, current := [])
  }

  /** A run of the sync that passes all unread lines and saves. */
  predicate Passes<W>(w: World<W>, a: Action) {
    a.Sync? && !Skips(a.c) && Completes(Unread(w.stored, w.log), a.c)
  }

  ghost predicate Next<W>(w: World<W>, w': World<W>, a: Action, step: (W, Line) -> W) {
    match a
    case Append(lines) => w' == w.(log := Log(w.log.inode, w.log.lines + lines))
    case Rotate(inode) => w' == Begun(w, Log(inode, []))
    case Truncate(contents) => w' == Begun(w, Log(w.log.inode, contents))
    case Sync(c) =>
      && Synced(w.stored, w'.stored, w.log, c, step)
      && w' == if Passes(w, a)
               then w.(stored := w'.stored, unseen := false, current := w.current + PassAll(Unread(w.stored, w.log), c))
               else w.(stored := w'.stored)
  }

  function LinesOf(passed: seq<Passed>): (r: seq<Line>)
    ensures |r| == |passed| && forall k | 0 <= k < |r| :: r[k] == passed[k].line
  {
    seq(|passed|, k requires 0 <= k < |passed| => passed[k].line)
  }

  /** Of the present contents exactly the lines from `missed` up to the stored offset have been passed. */
  predicate PassedFrom<W>(w: World<W>, missed: nat) {
    if w.unseen then w.current == []
    else
      && w.stored.inode == Some(w.log.inode) && missed <= w.stored.offset <= |w.log.lines|
      && LinesOf(w.current) == w.log.lines[missed..w.stored.offset]
  }

  /** Windows exactly once, counters at least once. */
  ghost predicate Exact<W>(w: World<W>, step: (W, Line) -> W, initial: W) {
    PassedFrom(w, 0) && Accounted(w, step, initial)
  }

  /** The windows are the fold over the passed lines, and each of them is counted. */
  ghost predicate Accounted<W>(w: World<W>, step: (W, Line) -> W, initial: W) {
    && w.stored.windows == Fold(step, initial, w.earlier + w.current)
    && forall n :: Counter(w.stored.counters, n) >= Count(w.earlier + w.current, n)
  }

  /** Fresh contents under the stored inode have grown to the stored offset; nothing tells them from the old ones. */
  predicate GrownBack<W>(w: World<W>) {
    w.unseen && w.stored.inode == Some(w.log.inode) && 0 < w.stored.offset <= |w.log.lines|
  }

  /** How many lines of unseen contents the next run misses. */
  function Missed<W>(w: World<W>): nat {
    if GrownBack(w) then w.stored.offset else 0
  }

  /** The accounts are kept whatever happens to the file. */
  lemma StaysAccounted<W>(w: World<W>, w': World<W>, a: Action, step: (W, Line) -> W, initial: W)
    requires Accounted(w, step, initial) && Next(w, w', a, step)
    ensures Accounted(w', step, initial)
  {
    if Passes(w, a) {
      var lines := Unread(w.stored, w.log);
      var passed := PassAll(lines, a.c);
      assert w'.earlier + w'.current == w.earlier + w.current + passed;
      FoldConcat(step, initial, w.earlier + w.current, passed);
      assert lines[..BreakAt(lines, a.c)] == lines;
      CountsOn(w.stored.counters, w'.stored.counters, w.earlier + w.current, passed);
    } else if !a.Append? && !a.Sync? {
      assert w'.earlier + w'.current == w.earlier + w.current;
    }
  }

  lemma CountsOn(before: map<string, nat>, after: map<string, nat>, passed: seq<Passed>, more: seq<Passed>)
    requires forall n :: Counter(before, n) >= Count(passed, n)
    requires forall n :: Counter(after, n) == Counter(before, n) + Count(more, n)
    ensures forall n :: Counter(after, n) >= Count(passed + more, n)
  {
    forall n ensures Counter(after, n) >= Count(passed + more, n) {
      CountConcat(passed, more, n);
    }
  }

  lemma PassEffect<W>(w: World<W>, w': World<W>, a: Action, step: (W, Line) -> W)
    requires Passes(w, a) && Next(w, w', a, step)
    ensures w'.log == w.log && !w'.unseen && w'.current == w.current + PassAll(Unread(w.stored, w.log), a.c)
    ensures w'.stored.inode == Some(w.log.inode) && w'.stored.offset == |w.log.lines|
  {}

  lemma UnseenStart<W>(w: World<W>)
    requires w.unseen
    ensures StartOffset(w.stored.inode, w.stored.offset, w.log) == Missed(w)
  {}

  /** The first run that passes unseen contents passes exactly the lines after those it misses. */
  lemma FirstPass<W>(w: World<W>, w': World<W>, a: Action, step: (W, Line) -> W)
    requires w.unseen && w.current == [] && Passes(w, a) && Next(w, w', a, step)
    ensures Missed(w) <= |w.log.lines| && w'.current == PassAll(w.log.lines[Missed(w)..], a.c)
    ensures PassedFrom(w', Missed(w))
  {
    PassEffect(w, w', a, step);
    UnseenStart(w);
    assert [] + PassAll(Unread(w.stored, w.log), a.c) == PassAll(Unread(w.stored, w.log), a.c);
    PassedToTheEnd(w', Missed(w), a.c);
  }

  lemma PassedToTheEnd<W>(w: World<W>, missed: nat, c: Circumstances)
    requires !w.unseen && w.stored.inode == Some(w.log.inode) && missed <= w.stored.offset == |w.log.lines|
    requires w.current == PassAll(w.log.lines[missed..], c)
    ensures PassedFrom(w, missed)
  {
    PassedLines(w.log.lines[missed..], c);
    assert w.log.lines[missed..|w.log.lines|] == w.log.lines[missed..];
  }

  lemma PassedLines(lines: seq<Line>, c: Circumstances)
    ensures LinesOf(PassAll(lines, c)) == lines
  {}

  /** What has been missed is never passed later, as long as the contents last. */
  lemma MissedStaysMissed<W>(w: World<W>, w': World<W>, a: Action, step: (W, Line) -> W, missed: nat)
    requires !w.unseen && PassedFrom(w, missed) && (a.Append? || a.Sync?) && Next(w, w', a, step)
    ensures !w'.unseen && PassedFrom(w', missed)
  {
    var offset := w.stored.offset;
    if a.Append? {
      assert w'.log.lines[missed..offset] == w.log.lines[missed..offset];
    } else if Passes(w, a) {
      var lines := w.log.lines;
      assert Unread(w.stored, w.log) == lines[offset..];
      assert lines[missed..|lines|] == lines[missed..offset] + lines[offset..];
      assert LinesOf(w'.current) == LinesOf(w.current) + lines[offset..];
    }
  }

  /** A run over unseen contents that have grown back. */
  predicate Loses<W>(w: World<W>, a: Action) {
    Passes(w, a) && GrownBack(w)
  }

  lemma StepStaysExact<W>(w: World<W>, w': World<W>, a: Action, step: (W, Line) -> W, initial: W)
    requires Exact(w, step, initial) && Next(w, w', a, step)
    ensures Exact(w', step, initial) <==> !Loses(w, a)
  {
    StaysAccounted(w, w', a, step, initial);
    if w.unseen && Passes(w, a) {
      FirstPass(w, w', a, step);
      assert |LinesOf(w'.current)| == |w.log.lines| - Missed(w);
      assert |w'.log.lines[0..w'.stored.offset]| == |w.log.lines|;
    } else if !w.unseen && (a.Append? || a.Sync?) {
      MissedStaysMissed(w, w', a, step, 0);
    }
  }

  ghost predicate Run<W>(worlds: seq<World<W>>, actions: seq<Action>, step: (W, Line) -> W) {
    |worlds| == |actions| + 1 && forall i | 0 <= i < |actions| :: Next(worlds[i], worlds[i + 1], actions[i], step)
  }

  /** Over any run of whole-line appends, rotations, truncations, successful syncs and syncs that fail part-way, the
      stored windows are at every moment the fold over exactly the lines before the stored offset, each once, and each
      is counted at least once, if and only if no run read unseen contents that had grown back to the stored offset. */
  lemma {:induction false} RunStaysExact<W>(worlds: seq<World<W>>, actions: seq<Action>, step: (W, Line) -> W,
                                            initial: W, k: nat)
    requires Run(worlds, actions, step) && Exact(worlds[0], step, initial) && k <= |actions|
    ensures (forall i | 0 <= i <= k :: Exact(worlds[i], step, initial)) <==>
            (forall i | 0 <= i < k :: !Loses(worlds[i], actions[i]))
  {
    if k > 0 {
      var j := k - 1;
      RunStaysExact(worlds, actions, step, initial, j);
      if forall i | 0 <= i <= j :: Exact(worlds[i], step, initial) {
        StepStaysExact(worlds[j], worlds[j + 1], actions[j], step, initial);
      }
    }
  }

  /** The accounts over the lines that were passed are right in every run. */
  lemma {:induction false} RunStaysAccounted<W>(worlds: seq<World<W>>, actions: seq<Action>, step: (W, Line) -> W,
                                                initial: W, k: nat)
    requires Run(worlds, actions, step) && Accounted(worlds[0], step, initial) && k <= |actions|
    ensures Accounted(worlds[k], step, initial)
  {
    if k > 0 {
      var j := k - 1;
      RunStaysAccounted(worlds, actions, step, initial, j);
      StaysAccounted(worlds[j], worlds[j + 1], actions[j], step, initial);
    }
  }

  const ALL_WELL := Circumstances({"n"}, false, {"n"}, true, None, true)

  const FIRST := Line("n", "a")
  const LOST := Line("n", "b")
  const LAST := Line("n", "c")
  const LIST := (seen: seq<Line>, l: Line) => seen + [l]

  const ONE_READ := World(Log(1, [FIRST]), Stored(Some(1), 1, [FIRST], map["n" := 1]), false, [], [Passed(FIRST, true, true)])
  const EMPTIED := Begun(ONE_READ, Log(1, []))
  const GROWN := EMPTIED.(log := Log(1, [LOST, LAST]))
  const ONE_LOST := GROWN.(stored := Stored(Some(1), 2, [FIRST, LAST], map["n" := 2]), unseen := false,
                           current := [Passed(LAST, true, true)])

  /** One line has been read; the file is emptied, two lines are written, and the next run sees the second only. */
  lemma TruncationLosesLine()
    ensures Exact(ONE_READ, LIST, [])
    ensures Run([ONE_READ, EMPTIED, GROWN, ONE_LOST], [Truncate([]), Append([LOST, LAST]), Sync(ALL_WELL)], LIST)
    ensures Loses(GROWN, Sync(ALL_WELL)) && !Exact(ONE_LOST, LIST, [])
  {
    OneReadIsExact();
    SyncSkipsFirst();
    assert [] + [LOST, LAST] == [LOST, LAST];
    StepStaysExact(ONE_READ, EMPTIED, Truncate([]), LIST, []);
    StepStaysExact(EMPTIED, GROWN, Append([LOST, LAST]), LIST, []);
    StepStaysExact(GROWN, ONE_LOST, Sync(ALL_WELL), LIST, []);
  }

  lemma OneReadIsExact()
    ensures Exact(ONE_READ, LIST, [])
  {
    var passed := [Passed(FIRST, true, true)];
    assert [] + passed == passed && passed[..0] == [];
    assert LinesOf(passed) == [FIRST] == ONE_READ.log.lines[0..1];
    assert Fold(LIST, [], passed) == LIST(Fold(LIST, [], []), FIRST) == [FIRST];
    forall n ensures Count(passed, n) == if n == "n" then 1 else 0 {}
  }

  lemma SyncSkipsFirst()
    ensures Next(GROWN, ONE_LOST, Sync(ALL_WELL), LIST) && Loses(GROWN, Sync(ALL_WELL))
  {
    var passed := [Passed(LAST, true, true)];
    assert [LOST, LAST][1..] == [LAST] && [LAST][..1] == [LAST] && passed[..0] == [];
    assert Unread(GROWN.stored, GROWN.log) == [LAST] && PassAll([LAST], ALL_WELL) == passed;
    assert Fold(LIST, [FIRST], passed) == LIST(Fold(LIST, [FIRST], []), LAST) == [FIRST, LAST];
    forall n ensures Count(passed, n) == if n == "n" then 1 else 0 {}
    assert Passes(GROWN, Sync(ALL_WELL));
  }

  /** A run that fails part-way and is then repeated counts the lines before the failure twice, and puts every line
      into the windows once. */
  lemma RepeatedRun<W>(s: Stored<W>, s1: Stored<W>, s2: Stored<W>, log: Log, c: Circumstances, d: Circumstances,
                       step: (W, Line) -> W, n: string)
    requires Synced(s, s1, log, c, step) && Synced(s1, s2, log, d, step) && !Skips(c) && !Skips(d)
    requires !Completes(Unread(s, log), c) && Completes(Unread(s, log), d)
    ensures var lines := Unread(s, log);
            && s2.windows == Fold(step, s.windows, PassAll(lines, d))
            && Counter(s2.counters, n) == Counter(s.counters, n)
                                          + Count(PassAll(lines[..BreakAt(lines, c)], c), n) + Count(PassAll(lines, d), n)
  {
    var lines := Unread(s, log);
    assert lines[..BreakAt(lines, d)] == lines;
  }

  // ---- rotation ----

  /** The rotation: the log is drained by one more sync, whose failure does not stop the rotation. */
  method RotateRawLogs<W>(store: Store<W>, log: Log, step: (W, Line) -> W, c: Circumstances, inode: nat)
      returns (drained: bool, next: Log, unread: seq<Line>)
    modifies store
    ensures next == Log(inode, [])
    ensures Synced(old(store.Value()), store.Value(), log, c, step)
    ensures drained && !Skips(c) ==> unread == []
    ensures !drained || Skips(c) ==> unread == Unread(old(store.Value()), log)
    ensures store.inode != Some(inode) ==> Unread(store.Value(), next) == [] && StartOffset(store.inode, store.offset, next) == 0
  {
    drained := SyncActivity(store, log, step, c);
    unread := Unread(store.Value(), log);
    next := Log(inode, []);
  }
}
