/** Concurrent inserters, scans and one vacuum on a Bloom index, one buffer lock
    at a time. */
module BloomProtocol {
  import opened Common
  import opened Flatten
  import opened BloomPages

  /** Where an insertion stands. */
  datatype Pc =
    | Start                        // tuple formed, meta page not yet read
    | TryFirst(blk: nat)           // about to lock the first listed page
    | WantMeta(tried: Option<nat>) // about to lock the meta page exclusively
    | Looping(at: nat)             // holds the meta page, trying listed pages from `at`

  datatype Inserter = Inserter(tuple: Tuple, pc: Pc)

  datatype Vacuum = Idle | Sweeping(dead: Tid -> bool, blk: nat, npages: nat, found: seq<nat>)

  /** A scan under way; `stored` and `removed` record, for reasoning only, what
      the index held at its start and what vacuum has removed since. */
  datatype Scan = Scan(hit: Tuple -> bool, blk: nat, npages: nat, seen: multiset<Tuple>,
                       stored: multiset<Tuple>, removed: multiset<Tuple>)

  /** Block 0 is the meta page; `pages[0]` stands for it and holds no tuples.
      `done` and `removed` record finished insertions and deleted tuples. */
  datatype State = State(pages: seq<BloomPage>,
                         nStart: nat, nEnd: nat, notFull: seq<nat>,
                         metaLock: Option<nat>,
                         inserters: map<nat, Inserter>,
                         vacuum: Vacuum,
                         scans: map<nat, Scan>,
                         done: multiset<Tuple>, removed: multiset<Tuple>)

  // ------------------------------------------------------------------- pages

  /** A page about to be inserted into: uninitialised and deleted ones are
      initialised first. */
  function Ready(p: BloomPage): BloomPage { if p.uninit || p.deleted then EMPTY_PAGE else p }

  predicate Fits(cap: nat, p: BloomPage) { |Ready(p).tuples| < cap }

  function Add(p: BloomPage, t: Tuple): BloomPage { Ready(p).(tuples := Ready(p).tuples + [t]) }

  /** A page after vacuum: it is marked deleted when its last tuple went. */
  function Vacuumed(p: BloomPage, dead: Tid -> bool): BloomPage
  {
    var kept := Filter(p.tuples, Spared(dead));
    if p.uninit || p.deleted then p
    else BloomPage(false, kept == [] && p.tuples != [], kept)
  }

  function Stored(pages: seq<BloomPage>): multiset<Tuple> { multiset(FlatMap(pages, TuplesOf)) }

  // ------------------------------------------------------------------- steps

  datatype Step =
    | Begin(pid: nat, tuple: Tuple)
    | ReadMeta(pid: nat)
    | FirstPage(pid: nat)
    | LockMeta(pid: nat)
    | ListedPage(pid: nat)
    | NewPage(pid: nat, recycled: Option<nat>)
    | LostExtension
    | VacuumBegin(dead: Tid -> bool)
    | VacuumPage
    | VacuumEnd
    | ScanBegin(sid: nat, hit: Tuple -> bool)
    | ScanStep(sid: nat)

  /** The insertion is over: its tuple is in. */
  function Finish(s: State, pid: nat): State
    requires pid in s.inserters
  {
    s.(inserters := s.inserters - {pid}, done := s.done + multiset{s.inserters[pid].tuple})
  }

  function Goto(s: State, pid: nat, pc: Pc): State
    requires pid in s.inserters
  {
    s.(inserters := s.inserters[pid := s.inserters[pid].(pc := pc)])
  }

  predicate AtPc(s: State, pid: nat, pc: Pc -> bool) { pid in s.inserters && pc(s.inserters[pid].pc) }

  /** The free-space map only offers pages that are new or deleted. */
  predicate Recyclable(s: State, b: nat)
  {
    1 <= b < |s.pages| && (s.pages[b].uninit || s.pages[b].deleted)
  }

  /** When a step can happen: what the process is doing, and which locks it needs. */
  predicate Enabled(s: State, step: Step)
  {
    match step
    case Begin(pid, _) => pid !in s.inserters
    case ReadMeta(pid) => AtPc(s, pid, (pc: Pc) => pc.Start?) && s.metaLock == None
    case FirstPage(pid) => AtPc(s, pid, (pc: Pc) => pc.TryFirst?)
    case LockMeta(pid) => AtPc(s, pid, (pc: Pc) => pc.WantMeta?) && s.metaLock == None
    case ListedPage(pid) => AtPc(s, pid, (pc: Pc) => pc.Looping? && pc.at < s.nEnd)
    case NewPage(pid, recycled) =>
      AtPc(s, pid, (pc: Pc) => pc.Looping? && pc.at >= s.nEnd) &&
      (recycled.Some? ==> Recyclable(s, recycled.value))
    case LostExtension => true
    case VacuumBegin(_) => s.vacuum.Idle?
    case VacuumPage => s.vacuum.Sweeping? && s.vacuum.blk < s.vacuum.npages
    case VacuumEnd => s.vacuum.Sweeping? && s.vacuum.blk >= s.vacuum.npages && s.metaLock == None
    case ScanBegin(sid, _) => sid !in s.scans
    case ScanStep(sid) => sid in s.scans && s.scans[sid].blk < s.scans[sid].npages
  }

  /** The state after an enabled step; `None` where the code would read past an
      array or a block that does not exist. */
  function Next(cap: nat, s: State, step: Step): Option<State>
    requires Enabled(s, step)
  {
    match step
    case Begin(pid, t) => Some(s.(inserters := s.inserters[pid := Inserter(t, Start)]))
    case ReadMeta(pid) =>
      if s.nEnd <= s.nStart then Some(Goto(s, pid, WantMeta(None)))
      else if s.nStart >= |s.notFull| then None
      else Some(Goto(s, pid, TryFirst(s.notFull[s.nStart])))
    case FirstPage(pid) =>
      var b := s.inserters[pid].pc.blk;
      if b >= |s.pages| then None
      else if !Fits(cap, s.pages[b]) then Some(Goto(s, pid, WantMeta(Some(b))))
      else Some(Finish(s.(pages := s.pages[b := Add(s.pages[b], s.inserters[pid].tuple)]), pid))
    case LockMeta(pid) =>
      if s.nStart < s.nEnd && s.nStart >= |s.notFull| then None
      else
        var skip := s.nStart < s.nEnd && s.inserters[pid].pc.tried == Some(s.notFull[s.nStart]);
        Some(Goto(s, pid, Looping(if skip then s.nStart + 1 else s.nStart)).(metaLock := Some(pid)))
    case ListedPage(pid) =>
      var at := s.inserters[pid].pc.at;
      if at >= |s.notFull| || s.notFull[at] >= |s.pages| then None
      else
        var b := s.notFull[at];
        if !Fits(cap, s.pages[b]) then Some(Goto(s, pid, Looping(at + 1)))
        else
          var pages := s.pages[b := Add(s.pages[b], s.inserters[pid].tuple)];
          Some(Finish(s.(pages := pages, nStart := at, metaLock := None), pid))
    case NewPage(pid, recycled) =>
      if |s.notFull| == 0 || cap == 0 then None
      else
        var b := if recycled.Some? then recycled.value else |s.pages|;
        var page := Add(EMPTY_PAGE, s.inserters[pid].tuple);
        var pages := if recycled.Some? then s.pages[b := page] else s.pages + [page];
        Some(Finish(s.(pages := pages, nStart := 0, nEnd := 1, notFull := s.notFull[0 := b], metaLock := None), pid))
    case LostExtension => Some(s.(pages := s.pages + [BloomPage(true, false, [])]))
    case VacuumBegin(dead) => Some(s.(vacuum := Sweeping(dead, 1, |s.pages|, [])))
    case VacuumPage =>
      var v := s.vacuum;
      if v.blk >= |s.pages| then None
      else
        var p := Vacuumed(s.pages[v.blk], v.dead);
        var live := !s.pages[v.blk].uninit && !s.pages[v.blk].deleted;
        var listed := live && p.tuples != [] && |p.tuples| < cap && |v.found| < |s.notFull|;
        var gone := multiset(s.pages[v.blk].tuples) - multiset(p.tuples);
        Some(s.(pages := s.pages[v.blk := p],
                vacuum := v.(blk := v.blk + 1, found := if listed then v.found + [v.blk] else v.found),
                removed := s.removed + gone,
                scans := map sid | sid in s.scans :: s.scans[sid].(removed := s.scans[sid].removed + gone)))
    case VacuumEnd =>
      var found := s.vacuum.found;
      if |found| > |s.notFull| then None
      else Some(s.(notFull := found + s.notFull[|found|..], nStart := 0, nEnd := |found|, vacuum := Idle))
    case ScanBegin(sid, hit) =>
      Some(s.(scans := s.scans[sid := Scan(hit, 1, |s.pages|, multiset{}, Stored(s.pages), multiset{})]))
    case ScanStep(sid) =>
      var c := s.scans[sid];
      if c.blk >= |s.pages| then None
      else
        var p := s.pages[c.blk];
        var hits := if p.uninit || p.deleted then [] else Filter(p.tuples, c.hit);
        Some(s.(scans := s.scans[sid := c.(blk := c.blk + 1, seen := c.seen + multiset(hits))]))
  }

  // --------------------------------------------------------------- invariant

  ghost predicate PagesOk(cap: nat, s: State)
  {
    |s.pages| >= 1 && s.pages[0].tuples == [] &&
    forall b :: 0 <= b < |s.pages| ==> PageOk(cap, s.pages[b])
  }

  /** A page due for initialisation holds no tuples, and no page is overfull. */
  ghost predicate PageOk(cap: nat, p: BloomPage)
  {
    |p.tuples| <= cap && (p.uninit || p.deleted ==> p.tuples == [])
  }

  ghost predicate Blocks(s: State, list: seq<nat>)
  {
    forall i :: 0 <= i < |list| ==> 1 <= list[i] < |s.pages|
  }

  ghost predicate ListOk(n: nat, s: State)
  {
    |s.notFull| == n && s.nStart <= s.nEnd <= n && Blocks(s, s.notFull[..s.nEnd])
  }

  ghost predicate InserterOk(s: State, pid: nat, pc: Pc)
  {
    (pc.TryFirst? ==> 1 <= pc.blk < |s.pages|) &&
    (pc.Looping? <==> s.metaLock == Some(pid)) &&
    (pc.Looping? ==> s.nStart <= pc.at <= s.nEnd)
  }

  ghost predicate InsertersOk(s: State)
  {
    (forall pid :: pid in s.inserters ==> InserterOk(s, pid, s.inserters[pid].pc)) &&
    (s.metaLock.Some? ==> s.metaLock.value in s.inserters)
  }

  ghost predicate VacuumOk(n: nat, s: State)
  {
    var v := s.vacuum;
    v.Sweeping? ==> 1 <= v.blk && v.npages <= |s.pages| && |v.found| <= n && Blocks(s, v.found)
  }

  /** Nothing lost, nothing duplicated. */
  ghost predicate Conserved(s: State) { Stored(s.pages) + s.removed == s.done }

  /** What a scan owes is accounted for: seen, removed, or on a page ahead. */
  ghost predicate ScanOk(pages: seq<BloomPage>, c: Scan)
  {
    1 <= c.blk <= c.npages <= |pages| &&
    forall t :: c.hit(t) ==> c.stored[t] <= c.seen[t] + c.removed[t] + Ahead(pages, c)[t]
  }

  ghost function Ahead(pages: seq<BloomPage>, c: Scan): multiset<Tuple>
    requires c.blk <= c.npages <= |pages|
  {
    Stored(pages[c.blk..c.npages])
  }

  ghost predicate ScansOk(s: State) { forall sid :: sid in s.scans ==> ScanOk(s.pages, s.scans[sid]) }

  /** A scan reports only matching tuples that were inserted. */
  ghost predicate ScansSound(s: State)
  {
    forall sid :: sid in s.scans ==> SoundScan(s.done, s.scans[sid])
  }

  ghost predicate SoundScan(done: multiset<Tuple>, c: Scan)
  {
    forall t :: t in c.seen ==> c.hit(t) && t in done
  }

  ghost predicate Inv(cap: nat, n: nat, s: State)
  {
    PagesOk(cap, s) && ListOk(n, s) && InsertersOk(s) && VacuumOk(n, s) && Conserved(s) && ScansOk(s)
  }

  // ------------------------------------------------------------ stored tuples

  lemma StoredAt(pages: seq<BloomPage>, b: nat)
    requires b < |pages|
    ensures Stored(pages) == Stored(pages[..b]) + multiset(pages[b].tuples) + Stored(pages[b + 1..])
  {
    FlatMapAt(pages, b, TuplesOf);
  }

  lemma NoneStored()
    ensures Stored([]) == multiset{}
  {
  }

  lemma StoredConcat(a: seq<BloomPage>, b: seq<BloomPage>)
    ensures Stored(a + b) == Stored(a) + Stored(b)
  {
    FlatMapConcat(a, b, TuplesOf);
  }

  lemma StoredOne(p: BloomPage)
    ensures Stored([p]) == multiset(p.tuples)
  {
    FlatMapOne(p, TuplesOf);
  }

  lemma StoredUpdate(pages: seq<BloomPage>, b: nat, p: BloomPage)
    requires b < |pages|
    ensures Stored(pages[b := p]) + multiset(pages[b].tuples) == Stored(pages) + multiset(p.tuples)
  {
    StoredAt(pages, b);
    StoredAt(pages[b := p], b);
    assert pages[b := p][..b] == pages[..b] && pages[b := p][b + 1..] == pages[b + 1..];
  }

  /** In every stretch of old blocks, `lost` is all that can be missing now. */
  ghost predicate Grew(pages: seq<BloomPage>, pages': seq<BloomPage>, lost: multiset<Tuple>)
  {
    |pages| <= |pages'| &&
    forall lo, hi :: 0 <= lo <= hi <= |pages| ==> Stored(pages[lo..hi]) <= Stored(pages'[lo..hi]) + lost
  }

  lemma AtMost(a: multiset<Tuple>, a': multiset<Tuple>, c: multiset<Tuple>, c': multiset<Tuple>, lost: multiset<Tuple>)
    requires a' + c == a + c' && c <= c' + lost
    ensures a <= a' + lost
  {
    forall x ensures a[x] <= (a' + lost)[x] {
      assert (a' + c)[x] == (a + c')[x];
      assert c[x] <= (c' + lost)[x];
    }
  }

  lemma UpdateGrew(pages: seq<BloomPage>, b: nat, p: BloomPage, lost: multiset<Tuple>)
    requires b < |pages| && multiset(pages[b].tuples) <= multiset(p.tuples) + lost
    ensures Grew(pages, pages[b := p], lost)
  {
    var pages' := pages[b := p];
    forall lo, hi | 0 <= lo <= hi <= |pages| ensures Stored(pages[lo..hi]) <= Stored(pages'[lo..hi]) + lost {
      if lo <= b < hi {
        assert pages'[lo..hi] == pages[lo..hi][b - lo := p];
        StoredUpdate(pages[lo..hi], b - lo, p);
        AtMost(Stored(pages[lo..hi]), Stored(pages'[lo..hi]), multiset(pages[b].tuples), multiset(p.tuples), lost);
      } else {
        assert pages'[lo..hi] == pages[lo..hi];
      }
    }
  }

  lemma AppendGrew(pages: seq<BloomPage>, p: BloomPage)
    ensures Grew(pages, pages + [p], multiset{})
    ensures Stored(pages + [p]) == Stored(pages) + multiset(p.tuples)
  {
    StoredConcat(pages, [p]);
    StoredOne(p);
    forall lo, hi | 0 <= lo <= hi <= |pages|
      ensures Stored(pages[lo..hi]) <= Stored((pages + [p])[lo..hi]) + multiset{}
    {
      assert (pages + [p])[lo..hi] == pages[lo..hi];
    }
  }

  /** Initialising a page before use loses nothing, because it holds nothing. */
  lemma AddKeeps(cap: nat, p: BloomPage, t: Tuple)
    requires PageOk(cap, p) && Fits(cap, p)
    ensures PageOk(cap, Add(p, t)) && multiset(Add(p, t).tuples) == multiset(p.tuples) + multiset{t}
  {
  }

  lemma AddToPage(cap: nat, pages: seq<BloomPage>, b: nat, t: Tuple)
    requires 1 <= b < |pages| && PageOk(cap, pages[b]) && Fits(cap, pages[b])
    ensures Grew(pages, pages[b := Add(pages[b], t)], multiset{})
    ensures Stored(pages[b := Add(pages[b], t)]) == Stored(pages) + multiset{t}
    ensures PageOk(cap, Add(pages[b], t))
  {
    AddKeeps(cap, pages[b], t);
    StoredUpdate(pages, b, Add(pages[b], t));
    UpdateGrew(pages, b, Add(pages[b], t), multiset{});
    Cancel(Stored(pages[b := Add(pages[b], t)]), Stored(pages), multiset(pages[b].tuples), multiset{t});
  }

  lemma Cancel(a: multiset<Tuple>, b: multiset<Tuple>, c: multiset<Tuple>, d: multiset<Tuple>)
    requires a + c == b + (c + d)
    ensures a == b + d
  {
    forall x ensures a[x] == (b + d)[x] { assert (a + c)[x] == (b + (c + d))[x]; }
  }

  lemma {:induction false} FilterSubset(ts: seq<Tuple>, keep: Tuple -> bool)
    ensures multiset(Filter(ts, keep)) <= multiset(ts)
  {
    FilterMultiset(ts, keep);
  }

  lemma VacuumedPage(cap: nat, pages: seq<BloomPage>, b: nat, dead: Tid -> bool)
    requires b < |pages| && PageOk(cap, pages[b])
    ensures var p := Vacuumed(pages[b], dead);
            var gone := multiset(pages[b].tuples) - multiset(p.tuples);
            PageOk(cap, p) && Grew(pages, pages[b := p], gone) && Stored(pages[b := p]) + gone == Stored(pages)
  {
    var p := Vacuumed(pages[b], dead);
    var gone := multiset(pages[b].tuples) - multiset(p.tuples);
    FilterSubset(pages[b].tuples, Spared(dead));
    FilterMembers(pages[b].tuples, Spared(dead));
    assert multiset(p.tuples) + gone == multiset(pages[b].tuples);
    UpdateGrew(pages, b, p, gone);
    StoredUpdate(pages, b, p);
    Cancel(Stored(pages), Stored(pages[b := p]), multiset(p.tuples), gone);
  }

  /** Vacuum removes a tuple only if the callback names it. */
  lemma VacuumRemovesOnlyDead(cap: nat, s: State, s': State, t: Tuple)
    requires Enabled(s, VacuumPage) && Next(cap, s, VacuumPage) == Some(s') && s'.removed[t] > s.removed[t]
    ensures s.vacuum.dead(t.tid)
  {
    FilterMultiset(s.pages[s.vacuum.blk].tuples, Spared(s.vacuum.dead));
  }

  // ----------------------------------------------------- what growth preserves

  lemma GrewScan(pages: seq<BloomPage>, pages': seq<BloomPage>, lost: multiset<Tuple>, c: Scan)
    requires Grew(pages, pages', lost) && ScanOk(pages, c)
    ensures ScanOk(pages', c.(removed := c.removed + lost))
  {
    var c' := c.(removed := c.removed + lost);
    forall t | c.hit(t) ensures c.stored[t] <= c'.seen[t] + c'.removed[t] + Ahead(pages', c')[t] {
      assert Stored(pages[c.blk..c.npages])[t] <= (Stored(pages'[c.blk..c.npages]) + lost)[t];
    }
  }

  lemma GrewScans(s: State, pages': seq<BloomPage>)
    requires ScansOk(s) && Grew(s.pages, pages', multiset{})
    ensures ScansOk(s.(pages := pages'))
  {
    forall sid | sid in s.scans ensures ScanOk(pages', s.scans[sid]) {
      GrewScan(s.pages, pages', multiset{}, s.scans[sid]);
      assert s.scans[sid].(removed := s.scans[sid].removed + multiset{}) == s.scans[sid];
    }
  }

  /** What more pages, or fuller ones, leave intact. */
  lemma GrewRest(n: nat, s: State, pages': seq<BloomPage>)
    requires ListOk(n, s) && VacuumOk(n, s) && InsertersOk(s) && ScansOk(s) && Grew(s.pages, pages', multiset{})
    ensures ListOk(n, s.(pages := pages')) && VacuumOk(n, s.(pages := pages')) && InsertersOk(s.(pages := pages'))
    ensures ScansOk(s.(pages := pages'))
  {
    GrewScans(s, pages');
  }

  // -------------------------------------------------------- each step keeps it

  /** An inserter that leaves, its lock with it. */
  lemma FinishKeeps(s: State, pid: nat, nStart: nat, nEnd: nat, notFull: seq<nat>)
    requires InsertersOk(s) && pid in s.inserters
    requires s.inserters[pid].pc.Looping? || (nStart == s.nStart && nEnd == s.nEnd)
    ensures InsertersOk(Finish(s.(nStart := nStart, nEnd := nEnd, notFull := notFull,
                                  metaLock := if s.inserters[pid].pc.Looping? then None else s.metaLock), pid))
  {
    var s' := Finish(s.(nStart := nStart, nEnd := nEnd, notFull := notFull,
                        metaLock := if s.inserters[pid].pc.Looping? then None else s.metaLock), pid);
    forall q | q in s'.inserters ensures InserterOk(s', q, s'.inserters[q].pc) {
      assert InserterOk(s, q, s.inserters[q].pc) && InserterOk(s, pid, s.inserters[pid].pc);
    }
    assert InserterOk(s, pid, s.inserters[pid].pc);
  }

  lemma ReadMetaKeeps(cap: nat, n: nat, s: State, pid: nat)
    requires Inv(cap, n, s) && Enabled(s, ReadMeta(pid))
    ensures Next(cap, s, ReadMeta(pid)).Some? && Inv(cap, n, Next(cap, s, ReadMeta(pid)).value)
  {
    assert InserterOk(s, pid, s.inserters[pid].pc);
    if s.nStart < s.nEnd { assert s.notFull[..s.nEnd][s.nStart] == s.notFull[s.nStart]; }
    GotoKeeps(s, pid, Next(cap, s, ReadMeta(pid)).value.inserters[pid].pc);
  }

  lemma GotoKeeps(s: State, pid: nat, pc: Pc)
    requires InsertersOk(s) && pid in s.inserters && InserterOk(s, pid, pc)
    ensures InsertersOk(Goto(s, pid, pc))
  {
    var s' := Goto(s, pid, pc);
    forall q | q in s'.inserters ensures InserterOk(s', q, s'.inserters[q].pc) {
      if q != pid { assert InserterOk(s, q, s.inserters[q].pc); }
    }
  }

  lemma FirstPageKeeps(cap: nat, n: nat, s: State, pid: nat)
    requires Inv(cap, n, s) && Enabled(s, FirstPage(pid))
    ensures Next(cap, s, FirstPage(pid)).Some? && Inv(cap, n, Next(cap, s, FirstPage(pid)).value)
  {
    assert InserterOk(s, pid, s.inserters[pid].pc);
    var b, t := s.inserters[pid].pc.blk, s.inserters[pid].tuple;
    if Fits(cap, s.pages[b]) {
      AddToPage(cap, s.pages, b, t);
      GrewRest(n, s, s.pages[b := Add(s.pages[b], t)]);
      FinishKeeps(s.(pages := s.pages[b := Add(s.pages[b], t)]), pid, s.nStart, s.nEnd, s.notFull);
    } else {
      GotoKeeps(s, pid, WantMeta(Some(b)));
    }
  }

  lemma LockMetaKeeps(cap: nat, n: nat, s: State, pid: nat)
    requires Inv(cap, n, s) && Enabled(s, LockMeta(pid))
    ensures Next(cap, s, LockMeta(pid)).Some? && Inv(cap, n, Next(cap, s, LockMeta(pid)).value)
  {
    var s' := Next(cap, s, LockMeta(pid)).value;
    forall q | q in s'.inserters ensures InserterOk(s', q, s'.inserters[q].pc) {
      assert InserterOk(s, q, s.inserters[q].pc);
    }
  }

  lemma ListedPageKeeps(cap: nat, n: nat, s: State, pid: nat)
    requires Inv(cap, n, s) && Enabled(s, ListedPage(pid))
    ensures Next(cap, s, ListedPage(pid)).Some? && Inv(cap, n, Next(cap, s, ListedPage(pid)).value)
  {
    assert InserterOk(s, pid, s.inserters[pid].pc);
    var at, t := s.inserters[pid].pc.at, s.inserters[pid].tuple;
    assert s.notFull[..s.nEnd][at] == s.notFull[at];
    var b := s.notFull[at];
    if Fits(cap, s.pages[b]) {
      AddToPage(cap, s.pages, b, t);
      GrewRest(n, s, s.pages[b := Add(s.pages[b], t)]);
      FinishKeeps(s.(pages := s.pages[b := Add(s.pages[b], t)]), pid, at, s.nEnd, s.notFull);
    } else {
      GotoKeeps(s, pid, Looping(at + 1));
    }
  }

  lemma NewPageKeeps(cap: nat, n: nat, s: State, pid: nat, recycled: Option<nat>)
    requires cap >= 1 && n >= 1 && Inv(cap, n, s) && Enabled(s, NewPage(pid, recycled))
    ensures Next(cap, s, NewPage(pid, recycled)).Some? && Inv(cap, n, Next(cap, s, NewPage(pid, recycled)).value)
  {
    hide Stored, ScanOk;
    var t := s.inserters[pid].tuple;
    var page := Add(EMPTY_PAGE, t);
    var b := if recycled.Some? then recycled.value else |s.pages|;
    var pages := if recycled.Some? then s.pages[b := page] else s.pages + [page];
    if recycled.Some? {
      assert Add(s.pages[b], t) == page;
      AddToPage(cap, s.pages, b, t);
    } else {
      AppendGrew(s.pages, page);
      assert multiset(page.tuples) == multiset{t};
    }
    GrewRest(n, s, pages);
    FinishKeeps(s.(pages := pages), pid, 0, 1, s.notFull[0 := b]);
    assert s.notFull[0 := b][..1] == [b];
  }

  lemma VacuumPageKeeps(cap: nat, n: nat, s: State)
    requires Inv(cap, n, s) && Enabled(s, VacuumPage)
    ensures Next(cap, s, VacuumPage).Some? && Inv(cap, n, Next(cap, s, VacuumPage).value)
  {
    var v := s.vacuum;
    VacuumedPage(cap, s.pages, v.blk, v.dead);
    var s' := Next(cap, s, VacuumPage).value;
    var gone := multiset(s.pages[v.blk].tuples) - multiset(Vacuumed(s.pages[v.blk], v.dead).tuples);
    forall sid | sid in s'.scans ensures ScanOk(s'.pages, s'.scans[sid]) {
      GrewScan(s.pages, s'.pages, gone, s.scans[sid]);
    }
    forall q | q in s'.inserters ensures InserterOk(s', q, s'.inserters[q].pc) {
      assert InserterOk(s, q, s.inserters[q].pc);
    }
  }

  lemma VacuumEndKeeps(cap: nat, n: nat, s: State)
    requires Inv(cap, n, s) && Enabled(s, VacuumEnd)
    ensures Next(cap, s, VacuumEnd).Some? && Inv(cap, n, Next(cap, s, VacuumEnd).value)
  {
    var s' := Next(cap, s, VacuumEnd).value;
    assert s'.notFull[..s'.nEnd] == s.vacuum.found;
    forall q | q in s'.inserters ensures InserterOk(s', q, s'.inserters[q].pc) {
      assert InserterOk(s, q, s.inserters[q].pc);
    }
  }

  lemma ScanBeginKeeps(cap: nat, n: nat, s: State, sid: nat, hit: Tuple -> bool)
    requires Inv(cap, n, s) && Enabled(s, ScanBegin(sid, hit))
    ensures Inv(cap, n, Next(cap, s, ScanBegin(sid, hit)).value)
  {
    StoredAt(s.pages, 0);
    assert s.pages[..0] == [] && s.pages[1..|s.pages|] == s.pages[1..];
  }

  lemma ScanStepKeeps(cap: nat, n: nat, s: State, sid: nat)
    requires Inv(cap, n, s) && Enabled(s, ScanStep(sid))
    ensures Next(cap, s, ScanStep(sid)).Some? && Inv(cap, n, Next(cap, s, ScanStep(sid)).value)
  {
    var c := s.scans[sid];
    assert ScanOk(s.pages, c);
    var s' := Next(cap, s, ScanStep(sid)).value;
    ScanMoves(cap, s.pages, c, s'.scans[sid]);
  }

  lemma ScanMoves(cap: nat, pages: seq<BloomPage>, c: Scan, c': Scan)
    requires ScanOk(pages, c) && c.blk < c.npages && PageOk(cap, pages[c.blk])
    requires var p := pages[c.blk];
             var hits := if p.uninit || p.deleted then [] else Filter(p.tuples, c.hit);
             c' == c.(blk := c.blk + 1, seen := c.seen + multiset(hits))
    ensures ScanOk(pages, c')
  {
    hide Stored, Filter;
    var p := pages[c.blk];
    var ahead := pages[c.blk..c.npages];
    StoredAt(ahead, 0);
    NoneStored();
    assert ahead[..0] == [] && ahead[1..] == pages[c.blk + 1..c.npages] && ahead[0] == p;
    FilterMultiset(p.tuples, c.hit);
    forall t | c.hit(t) ensures c'.stored[t] <= c'.seen[t] + c'.removed[t] + Ahead(pages, c')[t] {
      assert c.stored[t] <= c.seen[t] + c.removed[t] + Ahead(pages, c)[t];
      assert Ahead(pages, c)[t] == multiset(p.tuples)[t] + Ahead(pages, c')[t];
    }
  }

  lemma LostExtensionKeeps(cap: nat, n: nat, s: State)
    requires Inv(cap, n, s)
    ensures Inv(cap, n, Next(cap, s, LostExtension).value)
  {
    AppendGrew(s.pages, BloomPage(true, false, []));
    GrewRest(n, s, s.pages + [BloomPage(true, false, [])]);
  }

  lemma BeginKeeps(cap: nat, n: nat, s: State, pid: nat, t: Tuple)
    requires Inv(cap, n, s) && Enabled(s, Begin(pid, t))
    ensures Inv(cap, n, Next(cap, s, Begin(pid, t)).value)
  {
    var s' := Next(cap, s, Begin(pid, t)).value;
    forall q | q in s'.inserters ensures InserterOk(s', q, s'.inserters[q].pc) {
      if q != pid { assert InserterOk(s, q, s.inserters[q].pc); }
    }
  }

  /** Every enabled step reaches only blocks and slots that exist, and keeps the
      invariant. */
  lemma StepKeeps(cap: nat, n: nat, s: State, step: Step)
    requires cap >= 1 && n >= 1 && Inv(cap, n, s) && Enabled(s, step)
    ensures Next(cap, s, step).Some? && Inv(cap, n, Next(cap, s, step).value)
  {
    hide Inv;
    match step
    case Begin(pid, t) => BeginKeeps(cap, n, s, pid, t);
    case ReadMeta(pid) => ReadMetaKeeps(cap, n, s, pid);
    case FirstPage(pid) => FirstPageKeeps(cap, n, s, pid);
    case LockMeta(pid) => LockMetaKeeps(cap, n, s, pid);
    case ListedPage(pid) => ListedPageKeeps(cap, n, s, pid);
    case NewPage(pid, recycled) => NewPageKeeps(cap, n, s, pid, recycled);
    case LostExtension => LostExtensionKeeps(cap, n, s);
    case VacuumBegin(dead) => VacuumBeginKeeps(cap, n, s, dead);
    case VacuumPage => VacuumPageKeeps(cap, n, s);
    case VacuumEnd => VacuumEndKeeps(cap, n, s);
    case ScanBegin(sid, hit) => ScanBeginKeeps(cap, n, s, sid, hit);
    case ScanStep(sid) => ScanStepKeeps(cap, n, s, sid);
  }

  lemma VacuumBeginKeeps(cap: nat, n: nat, s: State, dead: Tid -> bool)
    requires Inv(cap, n, s) && s.vacuum.Idle?
    ensures Inv(cap, n, Next(cap, s, VacuumBegin(dead)).value)
  {
  }

  // ------------------------------------------------------------ whole runs

  /** The index as a build leaves it, with nobody at work. */
  ghost predicate Init(cap: nat, n: nat, s: State)
  {
    PagesOk(cap, s) && |s.notFull| == n && s.nStart == 0 && s.nEnd == 0 && s.metaLock == None &&
    s.inserters == map[] && s.vacuum == Idle && s.scans == map[] && s.done == Stored(s.pages) && s.removed == multiset{}
  }

  /** A built index, meta block in front, is a possible start. */
  lemma BuiltIsInit(cap: nat, n: nat, s: State, pages: seq<BloomPage>)
    requires forall i :: 0 <= i < |pages| ==> InUse(cap, pages[i])
    requires s == State([EMPTY_PAGE] + pages, 0, 0, s.notFull, None, map[], Idle, map[],
             multiset(FlatMap(pages, TuplesOf)), multiset{})
    requires |s.notFull| == n
    ensures Init(cap, n, s)
  {
    StoredConcat([EMPTY_PAGE], pages);
    StoredOne(EMPTY_PAGE);
  }

  ghost predicate Takes(cap: nat, s: State, step: Step, s': State)
  {
    Enabled(s, step) && Next(cap, s, step) == Some(s')
  }

  ghost predicate Run(cap: nat, n: nat, ss: seq<State>, steps: seq<Step>)
  {
    |ss| == |steps| + 1 && Init(cap, n, ss[0]) &&
    forall i :: 0 <= i < |steps| ==> Takes(cap, ss[i], steps[i], ss[i + 1])
  }

  lemma RunPrefix(cap: nat, n: nat, ss: seq<State>, steps: seq<Step>)
    requires Run(cap, n, ss, steps) && steps != []
    ensures Run(cap, n, ss[..|steps|], steps[..|steps| - 1])
  {
    var ss', steps' := ss[..|steps|], steps[..|steps| - 1];
    forall i | 0 <= i < |steps'| ensures Takes(cap, ss'[i], steps'[i], ss'[i + 1]) {
      assert Takes(cap, ss[i], steps[i], ss[i + 1]);
    }
  }

  /** In every interleaving: no step goes wrong, nothing is lost or duplicated,
      and the free list names only data pages. */
  lemma {:induction false} RunIsSafe(cap: nat, n: nat, ss: seq<State>, steps: seq<Step>)
    requires cap >= 1 && n >= 1 && Run(cap, n, ss, steps)
    ensures Inv(cap, n, ss[|steps|])
    ensures forall step :: Enabled(ss[|steps|], step) ==> Next(cap, ss[|steps|], step).Some?
    decreases |steps|
  {
    hide Inv;
    if steps == [] {
      InitIsInv(cap, n, ss[0]);
    } else {
      var k := |steps| - 1;
      RunPrefix(cap, n, ss, steps);
      RunIsSafe(cap, n, ss[..|steps|], steps[..k]);
      assert Takes(cap, ss[k], steps[k], ss[k + 1]);
      StepKeeps(cap, n, ss[k], steps[k]);
    }
    forall step | Enabled(ss[|steps|], step) ensures Next(cap, ss[|steps|], step).Some? {
      StepKeeps(cap, n, ss[|steps|], step);
    }
  }

  lemma InitIsInv(cap: nat, n: nat, s: State)
    requires Init(cap, n, s)
    ensures Inv(cap, n, s)
  {
  }

  // ------------------------------------------------- every insertion accounted

  /** The insertions of tuple `t` under way. */
  ghost function Flying(s: State, t: Tuple): set<nat>
  {
    set pid | pid in s.inserters && s.inserters[pid].tuple == t
  }

  ghost function Begun(steps: seq<Step>, t: Tuple): nat
  {
    if steps == [] then 0
    else Begun(steps[..|steps| - 1], t) + if BeginsWith(steps[|steps| - 1], t) then 1 else 0
  }

  ghost predicate BeginsWith(step: Step, t: Tuple) { step.Begin? && step.tuple == t }

  lemma FlyingSame(s: State, s': State, t: Tuple)
    requires s'.inserters.Keys == s.inserters.Keys
    requires forall pid :: pid in s.inserters ==> s'.inserters[pid].tuple == s.inserters[pid].tuple
    ensures Flying(s', t) == Flying(s, t)
  {
  }

  predicate Inserting(step: Step)
  {
    step.Begin? || step.ReadMeta? || step.FirstPage? || step.LockMeta? || step.ListedPage? || step.NewPage?
  }

  lemma OthersIdle(cap: nat, s: State, step: Step, s': State)
    requires Takes(cap, s, step, s') && !Inserting(step)
    ensures s'.inserters == s.inserters && s'.done == s.done
  {
  }

  /** An insertion moves on, lands, or begins; nobody else's changes. */
  lemma InsertingMoves(cap: nat, s: State, step: Step, s': State)
    requires Takes(cap, s, step, s') && Inserting(step) && !step.Begin?
    ensures step.pid in s.inserters
    ensures if step.pid in s'.inserters
            then s'.done == s.done &&
                 s'.inserters == s.inserters[step.pid := s.inserters[step.pid].(pc := s'.inserters[step.pid].pc)]
            else s'.inserters == s.inserters - {step.pid} && s'.done == s.done + multiset{s.inserters[step.pid].tuple}
    ensures s'.scans == s.scans
  {
  }

  lemma FlyingStep(cap: nat, s: State, step: Step, s': State, t: Tuple)
    requires Takes(cap, s, step, s')
    ensures s'.done[t] + |Flying(s', t)| == s.done[t] + |Flying(s, t)| + if BeginsWith(step, t) then 1 else 0
  {
    if step.Begin? {
      assert Flying(s', t) == if step.tuple == t then Flying(s, t) + {step.pid} else Flying(s, t);
    } else if Inserting(step) {
      InsertingMoves(cap, s, step, s');
      hide Next;
      if step.pid in s'.inserters { FlyingSame(s, s', t); } else { Landed(s, s', step.pid, t); }
    } else {
      OthersIdle(cap, s, step, s');
      hide Next;
      FlyingSame(s, s', t);
    }
  }

  lemma Landed(s: State, s': State, pid: nat, t: Tuple)
    requires pid in s.inserters && s'.inserters == s.inserters - {pid}
    requires s'.done == s.done + multiset{s.inserters[pid].tuple}
    ensures s'.done[t] + |Flying(s', t)| == s.done[t] + |Flying(s, t)|
  {
    assert Flying(s', t) == Flying(s, t) - {pid};
    assert pid in Flying(s, t) <==> s.inserters[pid].tuple == t;
  }

  /** Of every tuple: stored, removed and in flight make up what was there at the
      start and what was begun since. */
  lemma {:induction false} RunAccounts(cap: nat, n: nat, ss: seq<State>, steps: seq<Step>, t: Tuple)
    requires cap >= 1 && n >= 1 && Run(cap, n, ss, steps)
    ensures var s := ss[|steps|];
            Stored(s.pages)[t] + s.removed[t] + |Flying(s, t)| == Stored(ss[0].pages)[t] + Begun(steps, t)
  {
    hide Inv;
    RunDone(cap, n, ss, steps, t);
    RunIsSafe(cap, n, ss, steps);
    Balance(cap, n, ss[|steps|], t);
  }

  lemma Balance(cap: nat, n: nat, s: State, t: Tuple)
    requires Inv(cap, n, s)
    ensures Stored(s.pages)[t] + s.removed[t] == s.done[t]
  {
  }

  lemma {:induction false} RunDone(cap: nat, n: nat, ss: seq<State>, steps: seq<Step>, t: Tuple)
    requires Run(cap, n, ss, steps)
    ensures ss[|steps|].done[t] + |Flying(ss[|steps|], t)| == Stored(ss[0].pages)[t] + Begun(steps, t)
    decreases |steps|
  {
    if steps == [] {
      assert Flying(ss[0], t) == {};
    } else {
      var k := |steps| - 1;
      RunPrefix(cap, n, ss, steps);
      RunDone(cap, n, ss[..|steps|], steps[..k], t);
      assert Takes(cap, ss[k], steps[k], ss[k + 1]);
      FlyingStep(cap, ss[k], steps[k], ss[k + 1], t);
    }
  }

  // ---------------------------------------------------- scans under concurrency

  /** Every stored tuple was inserted. */
  lemma StoredWasInserted(cap: nat, n: nat, s: State, b: nat, t: Tuple)
    requires Inv(cap, n, s) && b < |s.pages| && t in s.pages[b].tuples
    ensures t in s.done
  {
    StoredAt(s.pages, b);
    assert t in multiset(s.pages[b].tuples);
    assert t in Stored(s.pages);
  }

  /** What a step leaves of the scans when no scan moves. */
  lemma ScansStill(cap: nat, s: State, step: Step, s': State)
    requires Takes(cap, s, step, s') && !Inserting(step) && !step.ScanStep?
    ensures s'.done == s.done
    ensures forall sid :: sid in s'.scans ==>
              s'.scans[sid].seen == multiset{} ||
              (sid in s.scans && s'.scans[sid].seen == s.scans[sid].seen && s'.scans[sid].hit == s.scans[sid].hit)
  {
  }

  lemma SoundScanStep(cap: nat, n: nat, s: State, sid: nat, s': State)
    requires Inv(cap, n, s) && ScansSound(s) && Takes(cap, s, ScanStep(sid), s')
    ensures ScansSound(s')
  {
    var c := s.scans[sid];
    var ts := s.pages[c.blk].tuples;
    assert SoundScan(s.done, c);
    FilterMultiset(ts, c.hit);
    forall t | t in s'.scans[sid].seen && t !in c.seen ensures c.hit(t) && t in s.done {
      assert t in multiset(Filter(ts, c.hit));
      assert t in multiset(ts);
      StoredWasInserted(cap, n, s, c.blk, t);
    }
  }

  lemma SoundStep(cap: nat, n: nat, s: State, step: Step, s': State)
    requires Inv(cap, n, s) && Takes(cap, s, step, s') && ScansSound(s)
    ensures ScansSound(s')
  {
    hide Inv, Next;
    if step.ScanStep? {
      SoundScanStep(cap, n, s, step.sid, s');
    } else if step.Begin? {
      BeginMoves(cap, s, step, s');
      SoundSame(s, s');
    } else if Inserting(step) {
      InsertingMoves(cap, s, step, s');
      SoundSame(s, s');
    } else {
      ScansStill(cap, s, step, s');
      forall sid | sid in s'.scans ensures SoundScan(s'.done, s'.scans[sid]) {
        if sid in s.scans { assert SoundScan(s.done, s.scans[sid]); }
      }
    }
  }

  lemma SoundSame(s: State, s': State)
    requires ScansSound(s) && s'.scans == s.scans && s.done <= s'.done
    ensures ScansSound(s')
  {
    forall sid | sid in s'.scans ensures SoundScan(s'.done, s'.scans[sid]) {
      assert SoundScan(s.done, s.scans[sid]);
    }
  }

  lemma BeginMoves(cap: nat, s: State, step: Step, s': State)
    requires Takes(cap, s, step, s') && step.Begin?
    ensures s'.scans == s.scans && s'.done == s.done
  {
  }

  /** In every interleaving, a finished scan has returned each matching tuple
      stored when it began, except as often as vacuum removed it meanwhile; and
      it has returned only matching tuples that were inserted. */
  lemma {:induction false} RunScans(cap: nat, n: nat, ss: seq<State>, steps: seq<Step>, sid: nat, t: Tuple)
    requires cap >= 1 && n >= 1 && Run(cap, n, ss, steps)
    requires sid in ss[|steps|].scans && ss[|steps|].scans[sid].blk >= ss[|steps|].scans[sid].npages
    ensures var c := ss[|steps|].scans[sid];
            (c.hit(t) ==> c.stored[t] <= c.seen[t] + c.removed[t]) &&
            (t in c.seen ==> c.hit(t) && t in ss[|steps|].done)
  {
    RunIsSafe(cap, n, ss, steps);
    RunSound(cap, n, ss, steps);
    var s := ss[|steps|];
    var c := s.scans[sid];
    assert ScanOk(s.pages, c) && SoundScan(s.done, c);
    assert s.pages[c.blk..c.npages] == [];
  }

  lemma {:induction false} RunSound(cap: nat, n: nat, ss: seq<State>, steps: seq<Step>)
    requires cap >= 1 && n >= 1 && Run(cap, n, ss, steps)
    ensures ScansSound(ss[|steps|])
    decreases |steps|
  {
    hide Inv;
    if steps != [] {
      var k := |steps| - 1;
      RunPrefix(cap, n, ss, steps);
      RunIsSafe(cap, n, ss[..|steps|], steps[..k]);
      RunSound(cap, n, ss[..|steps|], steps[..k]);
      assert Takes(cap, ss[k], steps[k], ss[k + 1]);
      SoundStep(cap, n, ss[k], steps[k], ss[k + 1]);
    }
  }

  // ------------------------------------------------------ vacuum is thorough

  /** Nobody is inserting a tuple that vacuum is out to delete. */
  ghost predicate Quiet(s: State)
  {
    s.vacuum.Sweeping? ==> forall pid :: pid in s.inserters ==> !s.vacuum.dead(s.inserters[pid].tuple.tid)
  }

  ghost predicate Clear(p: BloomPage, dead: Tid -> bool) { forall i :: 0 <= i < |p.tuples| ==> !dead(p.tuples[i].tid) }

  /** Pages vacuum has passed, and pages added since, hold no dead tuple. */
  ghost predicate Swept(s: State)
  {
    var v := s.vacuum;
    v.Sweeping? ==> forall b :: 0 <= b < |s.pages| && (b < v.blk || b >= v.npages) ==> Clear(s.pages[b], v.dead)
  }

  lemma FilterClear(ts: seq<Tuple>, dead: Tid -> bool)
    ensures forall i :: 0 <= i < |Filter(ts, Spared(dead))| ==> !dead(Filter(ts, Spared(dead))[i].tid)
  {
    var kept := Filter(ts, Spared(dead));
    FilterMultiset(ts, Spared(dead));
    forall i | 0 <= i < |kept| ensures !dead(kept[i].tid) { assert kept[i] in multiset(kept); }
  }

  lemma SweptVacuumPage(cap: nat, n: nat, s: State, s': State)
    requires Inv(cap, n, s) && Swept(s) && Takes(cap, s, VacuumPage, s')
    ensures Swept(s')
  {
    FilterClear(s.pages[s.vacuum.blk].tuples, s.vacuum.dead);
  }

  /** A page after an insertion step: as it was, with one more tuple, or new. */
  ghost predicate Gained(s: State, pid: nat, pages: seq<BloomPage>, b: nat)
    requires b < |pages|
  {
    (b < |s.pages| && pages[b] == s.pages[b]) ||
    (pid in s.inserters && pages[b].tuples == [s.inserters[pid].tuple]) ||
    (pid in s.inserters && b < |s.pages| && pages[b].tuples == s.pages[b].tuples + [s.inserters[pid].tuple])
  }

  lemma InsertingPages(cap: nat, s: State, step: Step, s': State)
    requires Takes(cap, s, step, s') && Inserting(step)
    ensures s'.vacuum == s.vacuum
    ensures forall b :: 0 <= b < |s'.pages| ==> Gained(s, step.pid, s'.pages, b)
  {
  }

  lemma SweptInserting(cap: nat, n: nat, s: State, step: Step, s': State)
    requires Inv(cap, n, s) && Takes(cap, s, step, s') && Inserting(step) && Swept(s) && Quiet(s)
    ensures Swept(s')
  {
    hide Inv, Next;
    InsertingPages(cap, s, step, s');
    if s'.vacuum.Sweeping? {
      forall b | 0 <= b < |s'.pages| && (b < s'.vacuum.blk || b >= s'.vacuum.npages)
        ensures Clear(s'.pages[b], s'.vacuum.dead)
      {
        assert Gained(s, step.pid, s'.pages, b);
        if b < |s.pages| { assert Clear(s.pages[b], s.vacuum.dead); }
      }
    }
  }

  lemma SweptOther(cap: nat, n: nat, s: State, step: Step, s': State)
    requires Inv(cap, n, s) && Takes(cap, s, step, s') && !Inserting(step) && !step.VacuumPage? && Swept(s)
    ensures Swept(s')
  {
  }

  lemma SweptStep(cap: nat, n: nat, s: State, step: Step, s': State)
    requires cap >= 1 && n >= 1 && Inv(cap, n, s) && Takes(cap, s, step, s') && Swept(s) && Quiet(s)
    ensures Swept(s')
  {
    hide Inv, Next, Swept, Quiet;
    if Inserting(step) {
      SweptInserting(cap, n, s, step, s');
    } else if step.VacuumPage? {
      SweptVacuumPage(cap, n, s, s');
    } else {
      SweptOther(cap, n, s, step, s');
    }
  }

  lemma {:induction false} RunSwept(cap: nat, n: nat, ss: seq<State>, steps: seq<Step>)
    requires cap >= 1 && n >= 1 && Run(cap, n, ss, steps) && forall i :: 0 <= i < |ss| ==> Quiet(ss[i])
    ensures Swept(ss[|steps|])
    decreases |steps|
  {
    hide Inv, Quiet;
    if steps != [] {
      var k := |steps| - 1;
      RunPrefix(cap, n, ss, steps);
      RunIsSafe(cap, n, ss[..|steps|], steps[..k]);
      RunSwept(cap, n, ss[..|steps|], steps[..k]);
      assert Takes(cap, ss[k], steps[k], ss[k + 1]);
      SweptStep(cap, n, ss[k], steps[k], ss[k + 1]);
    }
  }

  /** When vacuum is done with its pages, no dead tuple is left anywhere, however
      its work was interleaved with insertions of live ones. */
  lemma VacuumIsThorough(cap: nat, n: nat, ss: seq<State>, steps: seq<Step>, t: Tuple)
    requires cap >= 1 && n >= 1 && Run(cap, n, ss, steps) && forall i :: 0 <= i < |ss| ==> Quiet(ss[i])
    requires Enabled(ss[|steps|], VacuumEnd) && ss[|steps|].vacuum.dead(t.tid)
    ensures t !in Stored(ss[|steps|].pages)
  {
    RunSwept(cap, n, ss, steps);
    var s := ss[|steps|];
    forall p | p in s.pages ensures t !in TuplesOf(p) {
      var b :| 0 <= b < |s.pages| && s.pages[b] == p;
      assert Clear(s.pages[b], s.vacuum.dead);
    }
    FlatMapIn(s.pages, TuplesOf, t);
  }

  // --------------------------------------------------- what vacuum leaves behind

  /** A page in use that another tuple fits on. */
  predicate Roomy(cap: nat, p: BloomPage) { !p.uninit && !p.deleted && 0 < |p.tuples| < cap }

  /** One page of vacuum: new and deleted pages are left alone; from any other the
      dead tuples go, it is marked deleted when its last tuple went, and it is
      listed exactly if it is in use, has room and the list has a free slot. */
  lemma VacuumPageEffect(cap: nat, s: State, s': State)
    requires Takes(cap, s, VacuumPage, s')
    ensures var v, b := s.vacuum, s.vacuum.blk;
            b < |s.pages| && |s'.pages| == |s.pages| && s'.vacuum.Sweeping? && s'.vacuum.blk == b + 1 &&
            (forall c :: 0 <= c < |s.pages| && c != b ==> s'.pages[c] == s.pages[c]) &&
            s'.vacuum.found == v.found + if Roomy(cap, s'.pages[b]) && |v.found| < |s.notFull| then [b] else []
    ensures var p, p' := s.pages[s.vacuum.blk], s'.pages[s.vacuum.blk];
            if p.uninit || p.deleted then p' == p
            else !p'.uninit && (p'.deleted <==> p'.tuples == [] && p.tuples != []) &&
                 forall t :: multiset(p'.tuples)[t] == if s.vacuum.dead(t.tid) then 0 else multiset(p.tuples)[t]
  {
    FilterMultiset(s.pages[s.vacuum.blk].tuples, Spared(s.vacuum.dead));
  }

  /** The blocks from 1 up to `hi` whose pages have room, in order. */
  function Candidates(cap: nat, pages: seq<BloomPage>, hi: nat): seq<nat>
    requires hi <= |pages|
  {
    if hi <= 1 then []
    else Candidates(cap, pages, hi - 1) + if Roomy(cap, pages[hi - 1]) then [hi - 1] else []
  }

  function Firsts(blocks: seq<nat>, n: nat): seq<nat> { if |blocks| <= n then blocks else blocks[..n] }

  lemma {:induction false} SameCandidates(cap: nat, pages: seq<BloomPage>, pages': seq<BloomPage>, hi: nat)
    requires hi <= |pages| && hi <= |pages'| && forall b :: 1 <= b < hi ==> pages'[b] == pages[b]
    ensures Candidates(cap, pages', hi) == Candidates(cap, pages, hi)
  {
    if hi > 1 { SameCandidates(cap, pages, pages', hi - 1); }
  }

  lemma {:induction false} NoCandidates(cap: nat, pages: seq<BloomPage>, lo: nat, hi: nat)
    requires 1 <= lo <= hi <= |pages| && forall b :: lo <= b < hi ==> pages[b].uninit
    ensures Candidates(cap, pages, hi) == Candidates(cap, pages, lo)
    decreases hi - lo
  {
    if lo < hi { NoCandidates(cap, pages, lo, hi - 1); }
  }

  /** What vacuum has listed: the pages with room among those it has passed. */
  ghost predicate Listing(cap: nat, s: State)
  {
    var v := s.vacuum;
    v.Sweeping? ==> 1 <= v.blk <= v.npages <= |s.pages| &&
                    (forall b :: v.npages <= b < |s.pages| ==> s.pages[b].uninit) &&
                    v.found == Firsts(Candidates(cap, s.pages, v.blk), |s.notFull|)
  }

  lemma ListingVacuumPage(cap: nat, s: State, s': State)
    requires Listing(cap, s) && Takes(cap, s, VacuumPage, s')
    ensures Listing(cap, s')
  {
    VacuumPageEffect(cap, s, s');
    KeepsList(cap, s, VacuumPage, s');
    hide Next, Roomy;
    SameCandidates(cap, s.pages, s'.pages, s.vacuum.blk);
  }

  lemma KeepsList(cap: nat, s: State, step: Step, s': State)
    requires Takes(cap, s, step, s') && !Inserting(step)
    ensures |s'.notFull| == |s.notFull| || step.VacuumEnd?
    ensures step.VacuumPage? ==> s'.vacuum.Sweeping? && s'.vacuum.npages == s.vacuum.npages
  {
  }

  lemma ListingOther(cap: nat, s: State, step: Step, s': State)
    requires |s.pages| >= 1 && (Listing(cap, s) || step.VacuumBegin?)
    requires Takes(cap, s, step, s') && !Inserting(step) && !step.VacuumPage?
    ensures Listing(cap, s')
  {
    if s.vacuum.Sweeping? && s'.vacuum.Sweeping? { SameCandidates(cap, s.pages, s'.pages, s.vacuum.blk); }
  }

  /** From `i` on, in a run, nothing is inserted. */
  ghost predicate Undisturbed(steps: seq<Step>, i: nat)
  {
    forall k :: i < k < |steps| ==> !Inserting(steps[k])
  }

  lemma {:induction false} RunListing(cap: nat, n: nat, ss: seq<State>, steps: seq<Step>, i: nat)
    requires cap >= 1 && n >= 1 && Run(cap, n, ss, steps)
    requires i < |steps| && steps[i].VacuumBegin? && Undisturbed(steps, i)
    ensures Listing(cap, ss[|steps|])
    decreases |steps|
  {
    hide Inv, Listing, Next;
    var k := |steps| - 1;
    RunPrefix(cap, n, ss, steps);
    RunIsSafe(cap, n, ss[..|steps|], steps[..k]);
    SomePage(cap, n, ss[k]);
    assert Takes(cap, ss[k], steps[k], ss[k + 1]);
    if i == k {
      ListingOther(cap, ss[k], steps[k], ss[k + 1]);
    } else {
      RunListing(cap, n, ss[..|steps|], steps[..k], i);
      if steps[k].VacuumPage? {
        ListingVacuumPage(cap, ss[k], ss[k + 1]);
      } else {
        ListingOther(cap, ss[k], steps[k], ss[k + 1]);
      }
    }
  }

  lemma SomePage(cap: nat, n: nat, s: State)
    requires Inv(cap, n, s)
    ensures |s.pages| >= 1 && |s.notFull| == n
  {
  }

  /** A vacuum during which nothing is inserted leaves a free list of exactly the
      pages in use that have room, in block order, as many as the list holds. */
  lemma VacuumLists(cap: nat, n: nat, ss: seq<State>, steps: seq<Step>, i: nat, s': State)
    requires cap >= 1 && n >= 1 && Run(cap, n, ss, steps)
    requires i < |steps| && steps[i].VacuumBegin? && Undisturbed(steps, i)
    requires Takes(cap, ss[|steps|], VacuumEnd, s')
    ensures s'.nStart == 0 && s'.nEnd <= |s'.notFull|
    ensures s'.notFull[..s'.nEnd] == Firsts(Candidates(cap, s'.pages, |s'.pages|), n)
  {
    var s := ss[|steps|];
    RunListing(cap, n, ss, steps, i);
    RunIsSafe(cap, n, ss, steps);
    SomePage(cap, n, s);
    NoCandidates(cap, s.pages, s.vacuum.npages, |s.pages|);
    EndInstalls(cap, s, s');
  }

  lemma EndInstalls(cap: nat, s: State, s': State)
    requires Takes(cap, s, VacuumEnd, s')
    ensures s'.pages == s.pages && s'.nStart == 0 && s'.nEnd == |s.vacuum.found| <= |s'.notFull|
    ensures s'.notFull[..s'.nEnd] == s.vacuum.found
  {
  }

  /** Exactly the blocks whose pages have room are candidates. */
  lemma {:induction false} CandidatesAre(cap: nat, pages: seq<BloomPage>, hi: nat, b: nat)
    requires hi <= |pages|
    ensures b in Candidates(cap, pages, hi) <==> 1 <= b < hi && Roomy(cap, pages[b])
  {
    if hi > 1 { CandidatesAre(cap, pages, hi - 1, b); }
  }

  // ---------------------------------------------------- empty pages are reusable

  /** Every data page is new, deleted or holds a tuple: an empty page is one that
      an insertion may reuse. */
  ghost predicate NoHollow(s: State)
  {
    forall b :: 1 <= b < |s.pages| ==> s.pages[b].uninit || s.pages[b].deleted || s.pages[b].tuples != []
  }

  lemma NoHollowInserting(cap: nat, s: State, step: Step, s': State)
    requires NoHollow(s) && Takes(cap, s, step, s') && Inserting(step)
    ensures NoHollow(s')
  {
    InsertingPages(cap, s, step, s');
    hide Next;
    forall b | 1 <= b < |s'.pages| ensures s'.pages[b].uninit || s'.pages[b].deleted || s'.pages[b].tuples != [] {
      assert Gained(s, step.pid, s'.pages, b);
    }
  }

  lemma NoHollowOther(cap: nat, s: State, step: Step, s': State)
    requires NoHollow(s) && Takes(cap, s, step, s') && !Inserting(step)
    ensures NoHollow(s')
  {
    if step.VacuumPage? { VacuumPageEffect(cap, s, s'); }
  }

  /** In every interleaving that starts without hollow pages there are none. */
  lemma {:induction false} RunNoHollow(cap: nat, n: nat, ss: seq<State>, steps: seq<Step>)
    requires Run(cap, n, ss, steps) && NoHollow(ss[0])
    ensures NoHollow(ss[|steps|])
    decreases |steps|
  {
    hide Next, NoHollow;
    if steps != [] {
      var k := |steps| - 1;
      RunPrefix(cap, n, ss, steps);
      RunNoHollow(cap, n, ss[..|steps|], steps[..k]);
      assert Takes(cap, ss[k], steps[k], ss[k + 1]);
      if Inserting(steps[k]) {
        NoHollowInserting(cap, ss[k], steps[k], ss[k + 1]);
      } else {
        NoHollowOther(cap, ss[k], steps[k], ss[k + 1]);
      }
    }
  }

  /** So an insertion that has run out of listed pages may take any empty page. */
  lemma EmptyPageIsReused(cap: nat, n: nat, ss: seq<State>, steps: seq<Step>, pid: nat, b: nat)
    requires cap >= 1 && n >= 1 && Run(cap, n, ss, steps) && NoHollow(ss[0])
    requires var s := ss[|steps|];
             1 <= b < |s.pages| && s.pages[b].tuples == [] && pid in s.inserters &&
             s.inserters[pid].pc.Looping? && s.inserters[pid].pc.at >= s.nEnd
    ensures var s, step := ss[|steps|], NewPage(pid, Some(b));
            Enabled(s, step) && Next(cap, s, step).Some? &&
            Next(cap, s, step).value.pages[b].tuples == [s.inserters[pid].tuple]
  {
    RunIsSafe(cap, n, ss, steps);
    RunNoHollow(cap, n, ss, steps);
  }

  // -------------------------------------------------------- insertions finish

  predicate Own(step: Step, pid: nat) { Inserting(step) && !step.Begin? && step.pid == pid }

  /** How far an insertion is from its end. */
  function Rank(n: nat, pc: Pc): int
  {
    match pc
    case Start => n + 4
    case TryFirst(_) => n + 3
    case WantMeta(_) => n + 2
    case Looping(at) => n + 1 - at
  }

  /** What an insertion does next. */
  function OwnStep(s: State, pid: nat): Step
    requires pid in s.inserters
  {
    match s.inserters[pid].pc
    case Start => ReadMeta(pid)
    case TryFirst(_) => FirstPage(pid)
    case WantMeta(_) => LockMeta(pid)
    case Looping(at) => if at < s.nEnd then ListedPage(pid) else NewPage(pid, None)
  }

  /** Unless another insertion holds the meta page, an insertion can go on; and
      each step of its own finishes it or brings it nearer to its end. */
  lemma InsertionProgresses(cap: nat, n: nat, s: State, pid: nat)
    requires cap >= 1 && n >= 1 && Inv(cap, n, s) && pid in s.inserters
    ensures s.metaLock == None || s.metaLock == Some(pid) ==> Enabled(s, OwnStep(s, pid))
    ensures forall step, s' :: Own(step, pid) && Takes(cap, s, step, s') ==>
              pid !in s'.inserters || 0 <= Rank(n, s'.inserters[pid].pc) < Rank(n, s.inserters[pid].pc)
  {
    assert InserterOk(s, pid, s.inserters[pid].pc);
    forall step, s' | Own(step, pid) && Takes(cap, s, step, s')
      ensures pid !in s'.inserters || 0 <= Rank(n, s'.inserters[pid].pc) < Rank(n, s.inserters[pid].pc)
    {
      OwnStepNears(cap, n, s, pid, step, s');
    }
  }

  lemma OwnStepNears(cap: nat, n: nat, s: State, pid: nat, step: Step, s': State)
    requires cap >= 1 && n >= 1 && Inv(cap, n, s) && pid in s.inserters && Own(step, pid) && Takes(cap, s, step, s')
    ensures pid !in s'.inserters || 0 <= Rank(n, s'.inserters[pid].pc) < Rank(n, s.inserters[pid].pc)
  {
    assert InserterOk(s, pid, s.inserters[pid].pc);
    hide PagesOk, VacuumOk, ScansOk, Conserved, InsertersOk, Blocks, Add, Fits, Stored, Vacuumed;
  }

  /** The page named first has room: the insertion puts its tuple there, at the
      end, and never takes the meta page. */
  lemma FirstPageSuffices(cap: nat, n: nat, s: State, pid: nat)
    requires Inv(cap, n, s) && pid in s.inserters && s.inserters[pid].pc == Start && s.metaLock == None
    requires s.nStart < s.nEnd && Roomy(cap, s.pages[s.notFull[s.nStart]])
    ensures var b, t := s.notFull[s.nStart], s.inserters[pid].tuple;
            Enabled(s, ReadMeta(pid)) && Next(cap, s, ReadMeta(pid)).Some? &&
            var s1 := Next(cap, s, ReadMeta(pid)).value;
            Enabled(s1, FirstPage(pid)) && Next(cap, s1, FirstPage(pid)).Some? &&
            var s2 := Next(cap, s1, FirstPage(pid)).value;
            pid !in s2.inserters && s2.pages == s.pages[b := s.pages[b].(tuples := s.pages[b].tuples + [t])] &&
            s2.metaLock == None && s2.nStart == s.nStart && s2.nEnd == s.nEnd && s2.notFull == s.notFull
  {
    assert s.notFull[..s.nEnd][s.nStart] == s.notFull[s.nStart];
  }

  // ------------------------------------------------- no page is added too early

  /** A block with a page in use that holds as many tuples as it can. */
  predicate Full(cap: nat, s: State, b: nat)
  {
    b < |s.pages| && !s.pages[b].uninit && !s.pages[b].deleted && |s.pages[b].tuples| >= cap
  }

  /** The first `k` listed pages are full. */
  ghost predicate FullTo(cap: nat, s: State, k: nat)
  {
    k <= |s.notFull| && forall i :: 0 <= i < k ==> Full(cap, s, s.notFull[i])
  }

  ghost predicate TriedAt(cap: nat, s: State, pc: Pc)
  {
    (pc.WantMeta? && pc.tried.Some? ==> Full(cap, s, pc.tried.value)) && (pc.Looping? ==> FullTo(cap, s, pc.at))
  }

  /** Whatever has been passed over in the list is full. */
  ghost predicate Tried(cap: nat, s: State)
  {
    FullTo(cap, s, s.nStart) && forall pid :: pid in s.inserters ==> TriedAt(cap, s, s.inserters[pid].pc)
  }

  predicate TouchesList(step: Step) { step.VacuumPage? || step.VacuumEnd? }

  lemma FullStays(cap: nat, s: State, step: Step, s': State, b: nat)
    requires cap >= 1 && Takes(cap, s, step, s') && !TouchesList(step) && Full(cap, s, b)
    ensures Full(cap, s', b)
  {
  }

  lemma FullToStays(cap: nat, s: State, step: Step, s': State, k: nat)
    requires cap >= 1 && Takes(cap, s, step, s') && !TouchesList(step) && FullTo(cap, s, k) && s'.notFull == s.notFull
    ensures FullTo(cap, s', k)
  {
    hide Next, Full;
    forall i | 0 <= i < k ensures Full(cap, s', s'.notFull[i]) { FullStays(cap, s, step, s', s.notFull[i]); }
  }

  lemma TriedAtStays(cap: nat, s: State, step: Step, s': State, pc: Pc)
    requires cap >= 1 && Takes(cap, s, step, s') && !TouchesList(step) && TriedAt(cap, s, pc)
    requires s'.notFull == s.notFull || !pc.Looping?
    ensures TriedAt(cap, s', pc)
  {
    hide Next, Full, FullTo;
    if pc.WantMeta? && pc.tried.Some? { FullStays(cap, s, step, s', pc.tried.value); }
    if pc.Looping? { FullToStays(cap, s, step, s', pc.at); }
  }

  /** How an insertion step moves the list's start and its own place. */
  lemma OwnPlace(cap: nat, n: nat, s: State, step: Step, s': State)
    requires cap >= 1 && n >= 1 && Inv(cap, n, s) && Tried(cap, s) && Takes(cap, s, step, s') && Inserting(step)
    ensures step.pid in s'.inserters ==> TriedAt(cap, s, s'.inserters[step.pid].pc)
  {
    if step.pid in s.inserters { assert InserterOk(s, step.pid, s.inserters[step.pid].pc); }
    hide PagesOk, VacuumOk, ScansOk, Conserved, InsertersOk;
  }

  lemma ListPlace(cap: nat, n: nat, s: State, step: Step, s': State)
    requires Inv(cap, n, s) && Tried(cap, s) && Takes(cap, s, step, s') && Inserting(step)
    ensures step.NewPage? || s'.notFull == s.notFull
    ensures step.NewPage? ==> s'.nStart == 0 && step.pid !in s'.inserters
    ensures !step.NewPage? ==> FullTo(cap, s, s'.nStart)
    ensures forall q :: q in s'.inserters && q != step.pid ==> q in s.inserters && s'.inserters[q] == s.inserters[q]
  {
    if step.pid in s.inserters { assert TriedAt(cap, s, s.inserters[step.pid].pc); }
    hide PagesOk, VacuumOk, ScansOk, Conserved, InsertersOk, Full, Add;
  }

  lemma TriedInserting(cap: nat, n: nat, s: State, step: Step, s': State)
    requires cap >= 1 && n >= 1 && Inv(cap, n, s) && Tried(cap, s) && Takes(cap, s, step, s') && Inserting(step)
    ensures Tried(cap, s')
  {
    hide Next, Inv, Full, FullTo;
    OwnPlace(cap, n, s, step, s');
    ListPlace(cap, n, s, step, s');
    if step.NewPage? { OthersNotLooping(cap, n, s, step); }
    NoneListed(cap, s');
    if !step.NewPage? { FullToStays(cap, s, step, s', s'.nStart); }
    forall q | q in s'.inserters ensures TriedAt(cap, s', s'.inserters[q].pc) {
      TriedAtStays(cap, s, step, s', s'.inserters[q].pc);
    }
  }

  lemma NoneListed(cap: nat, s: State)
    ensures FullTo(cap, s, 0)
  {
  }

  /** While one insertion adds a page, no other goes through the list. */
  lemma OthersNotLooping(cap: nat, n: nat, s: State, step: Step)
    requires Inv(cap, n, s) && Enabled(s, step) && step.NewPage?
    ensures forall q :: q in s.inserters && q != step.pid ==> !s.inserters[q].pc.Looping?
  {
    forall q | q in s.inserters && q != step.pid ensures !s.inserters[q].pc.Looping? {
      assert InserterOk(s, q, s.inserters[q].pc) && InserterOk(s, step.pid, s.inserters[step.pid].pc);
    }
  }

  lemma TriedOther(cap: nat, n: nat, s: State, step: Step, s': State)
    requires cap >= 1 && Tried(cap, s) && Takes(cap, s, step, s') && !Inserting(step) && !TouchesList(step)
    ensures Tried(cap, s')
  {
    OthersIdle(cap, s, step, s');
    ListIdle(cap, s, step, s');
    hide Next, Full;
    FullToStays(cap, s, step, s', s.nStart);
    forall q | q in s'.inserters ensures TriedAt(cap, s', s'.inserters[q].pc) {
      TriedAtStays(cap, s, step, s', s'.inserters[q].pc);
    }
  }

  lemma ListIdle(cap: nat, s: State, step: Step, s': State)
    requires Takes(cap, s, step, s') && !Inserting(step) && !step.VacuumEnd?
    ensures s'.notFull == s.notFull && s'.nStart == s.nStart
  {
  }

  /** A stretch of a run, from any state. */
  ghost predicate Stretch(cap: nat, ss: seq<State>, steps: seq<Step>)
  {
    |ss| == |steps| + 1 && forall i :: 0 <= i < |steps| ==> Takes(cap, ss[i], steps[i], ss[i + 1])
  }

  lemma {:induction false} StretchTried(cap: nat, n: nat, ss: seq<State>, steps: seq<Step>)
    requires cap >= 1 && n >= 1 && Stretch(cap, ss, steps) && Inv(cap, n, ss[0]) && Tried(cap, ss[0])
    requires forall i :: 0 <= i < |steps| ==> !TouchesList(steps[i])
    ensures Inv(cap, n, ss[|steps|]) && Tried(cap, ss[|steps|])
    decreases |steps|
  {
    hide Inv, Tried, Next;
    if steps != [] {
      var k := |steps| - 1;
      var ss', steps' := ss[..|steps|], steps[..k];
      forall i | 0 <= i < |steps'| ensures Takes(cap, ss'[i], steps'[i], ss'[i + 1]) {
        assert Takes(cap, ss[i], steps[i], ss[i + 1]);
      }
      StretchTried(cap, n, ss', steps');
      assert Takes(cap, ss[k], steps[k], ss[k + 1]);
      StepKeeps(cap, n, ss[k], steps[k]);
      if Inserting(steps[k]) {
        TriedInserting(cap, n, ss[k], steps[k], ss[k + 1]);
      } else {
        TriedOther(cap, n, ss[k], steps[k], ss[k + 1]);
      }
    }
  }

  /** While vacuum neither touches a page nor installs its list, a page is added
      only when every listed page is full, from any state in which the list is
      fresh and nobody is inserting: after a build, or after a vacuum. */
  lemma PageAddedOnlyWhenFull(cap: nat, n: nat, ss: seq<State>, steps: seq<Step>, step: Step)
    requires cap >= 1 && n >= 1 && Stretch(cap, ss, steps) && Inv(cap, n, ss[0])
    requires ss[0].nStart == 0 && ss[0].inserters == map[]
    requires forall i :: 0 <= i < |steps| ==> !TouchesList(steps[i])
    requires Enabled(ss[|steps|], step) && step.NewPage?
    ensures var s := ss[|steps|];
            s.nEnd <= |s.notFull| && forall i :: 0 <= i < s.nEnd ==> Full(cap, s, s.notFull[i])
  {
    StretchTried(cap, n, ss, steps);
    var s := ss[|steps|];
    assert TriedAt(cap, s, s.inserters[step.pid].pc);
  }

  // ------------------------------------------------------ where insertions land

  /** The block a finishing step puts its tuple on. */
  function Target(s: State, step: Step): nat
    requires Inserting(step) && !step.Begin? && step.pid in s.inserters
  {
    var pc := s.inserters[step.pid].pc;
    if step.NewPage? then (if step.recycled.Some? then step.recycled.value else |s.pages|)
    else if pc.TryFirst? then pc.blk
    else if pc.Looping? && pc.at < |s.notFull| then s.notFull[pc.at]
    else 0
  }

  /** A finishing step puts the tuple last on one page, a page of the list or one
      that held nothing. An insertion that went through the list leaves it starting
      with the page it landed on; one that did not leaves it alone. */
  lemma InsertionLands(cap: nat, n: nat, s: State, step: Step, s': State)
    requires cap >= 1 && n >= 1 && Inv(cap, n, s) && Takes(cap, s, step, s')
    requires Inserting(step) && !step.Begin? && step.pid in s.inserters && step.pid !in s'.inserters
    ensures var b, t := Target(s, step), s.inserters[step.pid].tuple;
            1 <= b < |s'.pages| && !s'.pages[b].uninit && !s'.pages[b].deleted &&
            s'.pages[b].tuples == (if b < |s.pages| then s.pages[b].tuples else []) + [t] &&
            (forall c :: 0 <= c < |s.pages| && c != b ==> s'.pages[c] == s.pages[c]) &&
            s'.metaLock == (if step.FirstPage? then s.metaLock else None) &&
            if step.FirstPage? then s'.nStart == s.nStart && s'.nEnd == s.nEnd && s'.notFull == s.notFull
            else s'.nStart < s'.nEnd <= |s'.notFull| && s'.notFull[s'.nStart] == b
  {
    assert InserterOk(s, step.pid, s.inserters[step.pid].pc);
    if step.ListedPage? {
      var at := s.inserters[step.pid].pc.at;
      assert s.notFull[..s.nEnd][at] == s.notFull[at];
    }
    hide VacuumOk, ScansOk, Conserved, InsertersOk;
  }

  /** A page found full before the meta page was taken is not tried again at once. */
  lemma TriedIsSkipped(cap: nat, n: nat, s: State, pid: nat, s': State)
    requires Inv(cap, n, s) && Takes(cap, s, LockMeta(pid), s')
    ensures pid in s'.inserters && s'.inserters[pid].pc.Looping?
    ensures var at, tried := s'.inserters[pid].pc.at, s.inserters[pid].pc.tried;
            at < |s.notFull| && at == s.nStart < s.nEnd ==> tried != Some(s.notFull[at])
  {
  }
}
