/** The episodes a host remembers and what it recalls. */
module EpisodeJournal {
  // Scores are reals.

  import opened Sorting

  datatype Episode = Episode(seqNo: int, kind: string, text: string, importance: real, at: int, entity: string)

  datatype Snapshot = Snapshot(objective: string, objectiveAt: int, seqNo: int, episodes: seq<Episode>)

  /** A journal as a value. */
  datatype Log = Log(cap: nat, seqNo: int, objective: string, objectiveAt: int, episodes: seq<Episode>)

  const DEFAULT_CAP: nat := 64

  ghost predicate Increasing(eps: seq<Episode>) {
    forall i, j :: 0 <= i < j < |eps| ==> eps[i].seqNo < eps[j].seqNo
  }

  predicate Repeats(a: Episode, b: Episode) {
    a.kind == b.kind && a.text == b.text
  }

  ghost predicate NoRepeats(eps: seq<Episode>) {
    forall i :: 0 <= i < |eps| - 1 ==> !Repeats(eps[i], eps[i + 1])
  }

  ghost predicate Numbered(eps: seq<Episode>, last: int) {
    forall i :: 0 <= i < |eps| ==> eps[i].seqNo <= last
  }

  ghost predicate Rated(eps: seq<Episode>) {
    forall i :: 0 <= i < |eps| ==> 0.0 <= eps[i].importance <= 1.0
  }

  /** What every journal keeps. */
  ghost predicate Sound(eps: seq<Episode>, last: int) {
    Increasing(eps) && NoRepeats(eps) && Numbered(eps, last) && Rated(eps)
  }

  ghost predicate SoundLog(l: Log) {
    1 <= l.cap && |l.episodes| <= l.cap && Sound(l.episodes, l.seqNo)
  }

  function Latest<T>(s: seq<T>, n: nat): seq<T> {
    if |s| <= n then s else s[|s| - n..]
  }

  function Clamped(x: real): (r: real)
    ensures 0.0 <= r <= 1.0 && (0.0 <= x <= 1.0 ==> r == x)
  {
    if x < 0.0 then 0.0 else if x > 1.0 then 1.0 else x
  }

  // ----- the operations on values -----

  predicate IsRepeat(l: Log, kind: string, text: string) {
    var n := |l.episodes|;
    n > 0 && l.episodes[n - 1].kind == kind && l.episodes[n - 1].text == text
  }

  /** The newest episode is refreshed: a later time, and the higher importance. */
  function Refreshed(l: Log, importance: real, at: int): (r: (Log, Episode))
    requires l.episodes != []
  {
    var n := |l.episodes|;
    var e := l.episodes[n - 1];
    var e' := e.(at := at,
      importance := if Clamped(importance) > e.importance then Clamped(importance) else e.importance);
    (l.(episodes := l.episodes[..n - 1] + [e']), e')
  }

  /** A new episode takes the next number, and the oldest makes room for it. */
  function Added(l: Log, kind: string, text: string, importance: real, entity: string, at: int): (r: (Log, Episode)) {
    var e := Episode(l.seqNo + 1, kind, text, Clamped(importance), at, entity);
    (l.(seqNo := e.seqNo, episodes := Latest(l.episodes + [e], l.cap)), e)
  }

  function Appended(l: Log, kind: string, text: string, importance: real, entity: string, at: int)
    : (r: (Log, Episode))
  {
    if IsRepeat(l, kind, text) then Refreshed(l, importance, at) else Added(l, kind, text, importance, entity, at)
  }

  function Aimed(l: Log, goal: string, at: int): Log {
    if goal == "" || goal == l.objective then l else l.(objective := goal, objectiveAt := at)
  }

  function Exported(l: Log): Snapshot {
    Snapshot(l.objective, l.objectiveAt, l.seqNo, l.episodes)
  }

  /** The larger of `last` and every number in `eps`. */
  function Highest(last: int, eps: seq<Episode>): int {
    if eps == [] then last
    else
      var m := Highest(last, eps[..|eps| - 1]);
      if eps[|eps| - 1].seqNo > m then eps[|eps| - 1].seqNo else m
  }

  lemma {:induction false} HighestMeans(last: int, eps: seq<Episode>)
    ensures var m := Highest(last, eps);
            && m >= last && Numbered(eps, m)
            && (m == last || exists i :: 0 <= i < |eps| && eps[i].seqNo == m)
  {
    if eps != [] {
      var init := eps[..|eps| - 1];
      HighestMeans(last, init);
      assert forall i :: 0 <= i < |init| ==> eps[i] == init[i];
    }
  }

  function Imported(cap: nat, s: Snapshot): Log {
    var eps := Latest(s.episodes, cap);
    Log(cap, Highest(s.seqNo, eps), s.objective, s.objectiveAt, eps)
  }

  // ----- the journal -----

  class Journal {
    const cap: nat
    var seqNo: int
    var objective: string
    var objectiveAt: int
    var episodes: seq<Episode>

    function View(): Log
      reads this
    {
      Log(cap, seqNo, objective, objectiveAt, episodes)
    }

    constructor (cap: int)
      ensures View() == Log(if cap <= 0 then DEFAULT_CAP else cap, 0, "", 0, [])
      ensures SoundLog(View())
    {
      this.cap := if cap <= 0 then DEFAULT_CAP else cap;
      seqNo, objective, objectiveAt, episodes := 0, "", 0, [];
    }

    method Append(kind: string, text: string, importance: real, entity: string, at: int) returns (ep: Episode)
      requires SoundLog(View())
      modifies this
      ensures (View(), ep) == Appended(old(View()), kind, text, importance, entity, at)
      ensures SoundLog(View())
      ensures |episodes| > 0 && episodes[|episodes| - 1] == ep
      ensures ep.seqNo == old(seqNo) + 1
        || (|old(episodes)| > 0 && ep.seqNo == old(episodes)[|old(episodes)| - 1].seqNo)
    {
      hide SoundLog;
      Caps(View());
      AppendSound(View(), kind, text, importance, entity, at);
      var imp := importance;
      if imp < 0.0 {
        imp := 0.0;
      } else if imp > 1.0 {
        imp := 1.0;
      }
      var n := |episodes|;
      if n > 0 {
        var last := episodes[n - 1];
        if last.kind == kind && last.text == text {
          last := last.(at := at);
          if imp > last.importance {
            last := last.(importance := imp);
          }
          episodes := episodes[..n - 1] + [last];
          return last;
        }
      }
      seqNo := seqNo + 1;
      ep := Episode(seqNo, kind, text, imp, at, entity);
      episodes := episodes + [ep];
      if |episodes| > cap {
        episodes := episodes[|episodes| - cap..];
      }
    }

    method SetObjective(goal: string, at: int) returns (changed: bool)
      modifies this
      ensures View() == Aimed(old(View()), goal, at)
      ensures changed <==> goal != "" && goal != old(objective)
    {
      if goal == "" || goal == objective {
        return false;
      }
      objective := goal;
      objectiveAt := at;
      return true;
    }

    method Export() returns (s: Snapshot)
      ensures s == Exported(View())
    {
      s := Snapshot(objective, objectiveAt, seqNo, episodes);
    }

    method Import(s: Snapshot)
      modifies this
      ensures View() == Imported(cap, s)
      ensures Numbered(episodes, seqNo)
    {
      var eps := s.episodes;
      if |eps| > cap {
        eps := eps[|eps| - cap..];
      }
      episodes := eps;
      objective := s.objective;
      objectiveAt := s.objectiveAt;
      seqNo := s.seqNo;
      var i := 0;
      while i < |eps|
        invariant 0 <= i <= |eps|
        invariant episodes == eps && objective == s.objective && objectiveAt == s.objectiveAt
        invariant seqNo == Highest(s.seqNo, eps[..i])
      {
        assert eps[..i + 1][..i] == eps[..i];
        if eps[i].seqNo > seqNo {
          seqNo := eps[i].seqNo;
        }
        i := i + 1;
      }
      assert eps[..i] == eps;
      HighestMeans(s.seqNo, eps);
    }

    /** Up to `n` episodes by importance and recency, in chronological order. */
    method Salient(n: int) returns (out: seq<Episode>)
      requires Increasing(episodes)
      ensures Recalls(episodes, n, out)
    {
      if n <= 0 || |episodes| == 0 {
        return [];
      }
      if |episodes| <= n {
        return episodes;
      }
      var last := |episodes| - 1;
      var ranked: seq<Rating> := [];
      var i := 0;
      while i < |episodes|
        invariant 0 <= i <= |episodes|
        invariant ranked == Ratings(episodes)[..i]
      {
        var recency := i as real / last as real;
        ranked := ranked + [Rating(episodes[i], episodes[i].importance + 0.6 * recency)];
        i := i + 1;
      }
      assert ranked == Ratings(episodes);
      ranked := SortStable(ByScore, ranked);
      var picked := ranked[..n];
      var chosen: seq<Episode> := [];
      i := 0;
      while i < |picked|
        invariant 0 <= i <= |picked|
        invariant |chosen| == i && forall k :: 0 <= k < i ==> chosen[k] == picked[k].episode
      {
        chosen := chosen + [picked[i].episode];
        i := i + 1;
      }
      BestRecalls(episodes, n, chosen);
      out := SortStable(BySeq, chosen);
    }
  }

  // ----- soundness of the operations -----

  lemma LatestSound(eps: seq<Episode>, last: int, n: nat)
    requires Sound(eps, last)
    ensures Sound(Latest(eps, n), last)
  {
  }

  lemma ExtendSound(eps: seq<Episode>, last: int, e: Episode)
    requires Sound(eps, last) && last < e.seqNo && 0.0 <= e.importance <= 1.0
    requires eps == [] || !Repeats(eps[|eps| - 1], e)
    ensures Sound(eps + [e], e.seqNo)
  {
  }

  lemma RefreshSound(eps: seq<Episode>, last: int, e: Episode)
    requires Sound(eps, last) && eps != [] && 0.0 <= e.importance <= 1.0
    requires Repeats(eps[|eps| - 1], e) && e.seqNo == eps[|eps| - 1].seqNo
    ensures Sound(eps[..|eps| - 1] + [e], last)
  {
  }

  lemma AddedSound(l: Log, kind: string, text: string, importance: real, entity: string, at: int)
    requires SoundLog(l) && !IsRepeat(l, kind, text)
    ensures var (l', e) := Added(l, kind, text, importance, entity, at);
            && SoundLog(l') && l'.episodes != [] && l'.episodes[|l'.episodes| - 1] == e
  {
    hide Sound;
    var e := Added(l, kind, text, importance, entity, at).1;
    ExtendSound(l.episodes, l.seqNo, e);
    LatestSound(l.episodes + [e], e.seqNo, l.cap);
  }

  lemma RefreshedSound(l: Log, importance: real, at: int)
    requires SoundLog(l) && l.episodes != []
    ensures var (l', e) := Refreshed(l, importance, at);
            && SoundLog(l') && l'.episodes != [] && l'.episodes[|l'.episodes| - 1] == e
  {
    Ratable(l);
    hide Sound;
    RefreshSound(l.episodes, l.seqNo, Refreshed(l, importance, at).1);
  }

  lemma AppendSound(l: Log, kind: string, text: string, importance: real, entity: string, at: int)
    requires SoundLog(l)
    ensures var (l', e) := Appended(l, kind, text, importance, entity, at);
            && SoundLog(l') && l'.episodes != [] && l'.episodes[|l'.episodes| - 1] == e
  {
    if IsRepeat(l, kind, text) {
      hide SoundLog, Refreshed;
      RefreshedSound(l, importance, at);
    } else {
      hide SoundLog, Added;
      AddedSound(l, kind, text, importance, entity, at);
    }
  }

  lemma Caps(l: Log)
    requires SoundLog(l)
    ensures l.cap >= 1
  {
  }

  lemma Ratable(l: Log)
    requires SoundLog(l) && l.episodes != []
    ensures 0.0 <= l.episodes[|l.episodes| - 1].importance <= 1.0
  {
  }

  /** New numbers exceed all retained ones, whatever was imported; the rest is as good as the snapshot. */
  lemma ImportSound(cap: nat, s: Snapshot)
    requires 1 <= cap
    ensures |Imported(cap, s).episodes| <= cap && Numbered(Imported(cap, s).episodes, Imported(cap, s).seqNo)
    ensures Sound(s.episodes, s.seqNo) ==> SoundLog(Imported(cap, s)) && Imported(cap, s).seqNo == s.seqNo
  {
    HighestMeans(s.seqNo, Latest(s.episodes, cap));
    if Sound(s.episodes, s.seqNo) {
      LatestSound(s.episodes, s.seqNo, cap);
    }
  }

  /** Export then import restores a journal; into a smaller one, its newest episodes. */
  lemma ExportImport(l: Log, cap: nat)
    requires SoundLog(l) && 1 <= cap
    ensures Imported(cap, Exported(l)) == l.(cap := cap, episodes := Latest(l.episodes, cap))
    ensures Imported(l.cap, Exported(l)) == l
  {
    ImportSound(cap, Exported(l));
    ImportSound(l.cap, Exported(l));
  }

  /** The same thing happening again and again, each time with an importance and a time. */
  function AppendedAll(l: Log, kind: string, text: string, entity: string, xs: seq<(real, int)>): Log {
    if xs == [] then l
    else
      var x := xs[|xs| - 1];
      Appended(AppendedAll(l, kind, text, entity, xs[..|xs| - 1]), kind, text, x.0, entity, x.1).0
  }

  ghost predicate Merges(e: Episode, kind: string, text: string, xs: seq<(real, int)>, floor: real) {
    && e.kind == kind && e.text == text && xs != [] && e.at == xs[|xs| - 1].1
    && e.importance >= floor && (forall i :: 0 <= i < |xs| ==> e.importance >= Clamped(xs[i].0))
    && (e.importance == floor || exists i :: 0 <= i < |xs| && e.importance == Clamped(xs[i].0))
  }

  lemma MergesOne(e: Episode, e': Episode, kind: string, text: string,
                  xs: seq<(real, int)>, x: (real, int), floor: real)
    requires Merges(e, kind, text, xs, floor) && e'.kind == e.kind && e'.text == e.text && e'.at == x.1
    requires e'.importance == if Clamped(x.0) > e.importance then Clamped(x.0) else e.importance
    ensures Merges(e', kind, text, xs + [x], floor)
  {
    var all := xs + [x];
    assert all[|xs|] == x && forall i :: 0 <= i < |xs| ==> all[i] == xs[i];
    if e.importance != floor && e'.importance == e.importance {
      var i :| 0 <= i < |xs| && e.importance == Clamped(xs[i].0);
      assert e'.importance == Clamped(all[i].0);
    }
  }

  /** Repeats collapse into one new episode, which carries the highest importance and the last time. */
  lemma {:induction false} RepeatsCollapse(l: Log, kind: string, text: string, entity: string, xs: seq<(real, int)>)
    returns (e: Episode)
    requires l.cap >= 1 && !IsRepeat(l, kind, text) && xs != []
    ensures AppendedAll(l, kind, text, entity, xs) ==
            l.(seqNo := l.seqNo + 1, episodes := Latest(l.episodes + [e], l.cap))
    ensures e.seqNo == l.seqNo + 1 && e.entity == entity && Merges(e, kind, text, xs, 0.0)
  {
    var init, x := xs[..|xs| - 1], xs[|xs| - 1];
    assert xs == init + [x];
    if init == [] {
      e := Added(l, kind, text, x.0, entity, x.1).1;
      assert AppendedAll(l, kind, text, entity, init) == l;
      assert xs[0] == x;
    } else {
      var d := RepeatsCollapse(l, kind, text, entity, init);
      var m := AppendedAll(l, kind, text, entity, init);
      LatestEnd(l.episodes, d, l.cap);
      e := Refreshed(m, x.0, x.1).1;
      LatestUpdate(l.episodes, d, e, l.cap);
      MergesOne(d, e, kind, text, init, x, 0.0);
    }
  }

  lemma LatestEnd(eps: seq<Episode>, e: Episode, n: nat)
    requires n >= 1
    ensures var r := Latest(eps + [e], n); r != [] && r[|r| - 1] == e
  {
  }

  lemma LatestUpdate(eps: seq<Episode>, d: Episode, e: Episode, n: nat)
    requires n >= 1
    ensures var r := Latest(eps + [d], n); r != [] && r[..|r| - 1] + [e] == Latest(eps + [e], n)
  {
    LatestEnd(eps, d, n);
  }

  // ----- runs -----

  /** A host's journal, and the snapshots that were persisted on the way. */
  datatype World = World(log: Log, saved: seq<Snapshot>)

  datatype Action =
    | Record(kind: string, text: string, importance: real, entity: string, at: int)
    | Aim(goal: string, when: int)
    | Save
    | Restart(cap: int, index: nat)

  /** A restart makes a journal of any capacity and imports a snapshot, if there is one to import. */
  function Step(w: World, a: Action): World {
    match a
    case Record(kind, text, importance, entity, at) =>
      w.(log := Appended(w.log, kind, text, importance, entity, at).0)
    case Aim(goal, when) => w.(log := Aimed(w.log, goal, when))
    case Save => w.(saved := w.saved + [Exported(w.log)])
    case Restart(cap, k) =>
      var c := if cap <= 0 then DEFAULT_CAP else cap;
      w.(log := if k < |w.saved| then Imported(c, w.saved[k]) else Log(c, 0, "", 0, []))
  }

  function Run(w: World, actions: seq<Action>): World {
    if actions == [] then w else Step(Run(w, actions[..|actions| - 1]), actions[|actions| - 1])
  }

  ghost predicate SoundWorld(w: World) {
    SoundLog(w.log) && forall k :: 0 <= k < |w.saved| ==> Sound(w.saved[k].episodes, w.saved[k].seqNo)
  }

  /** Across any run of appends, exports and imports, also into smaller journals, the numbers increase
      strictly, the bound holds, no two neighbours repeat, and the next number exceeds all retained ones. */
  lemma {:induction false} RunSound(w: World, actions: seq<Action>)
    requires SoundWorld(w)
    ensures SoundWorld(Run(w, actions))
  {
    if actions != [] {
      var init, a := actions[..|actions| - 1], actions[|actions| - 1];
      RunSound(w, init);
      var v := Run(w, init);
      match a
      case Record(kind, text, importance, entity, at) =>
        AppendSound(v.log, kind, text, importance, entity, at);
      case Restart(cap, k) =>
        if k < |v.saved| {
          ImportSound(if cap <= 0 then DEFAULT_CAP else cap, v.saved[k]);
        }
      case _ =>
    }
  }

  // ----- recall -----

  datatype Rating = Rating(episode: Episode, score: real)

  predicate ByScore(a: Rating, b: Rating) {
    a.score >= b.score
  }

  predicate BySeq(a: Episode, b: Episode) {
    a.seqNo <= b.seqNo
  }

  /** Importance, and recency from 0 for the oldest to 1 for the newest. */
  function Score(eps: seq<Episode>, i: nat): real
    requires i < |eps| && |eps| >= 2
  {
    eps[i].importance + 0.6 * (i as real / (|eps| - 1) as real)
  }

  function Ratings(eps: seq<Episode>): (r: seq<Rating>)
    requires |eps| >= 2
    ensures |r| == |eps| && forall i :: 0 <= i < |eps| ==> r[i] == Rating(eps[i], Score(eps, i))
  {
    seq(|eps|, i requires 0 <= i < |eps| => Rating(eps[i], Score(eps, i)))
  }

  /** Episode `i` matters more than episode `k`: a higher score, or the same and older. */
  predicate Outranks(eps: seq<Episode>, i: nat, k: nat)
    requires i < |eps| && k < |eps| && |eps| >= 2
  {
    Score(eps, i) > Score(eps, k) || (Score(eps, i) == Score(eps, k) && i < k)
  }

  lemma ScoreGap(eps: seq<Episode>, i: nat, k: nat)
    requires i < |eps| && k < |eps| && |eps| >= 2
    ensures Score(eps, i) - Score(eps, k) ==
            eps[i].importance - eps[k].importance - 0.6 * ((k - i) as real / (|eps| - 1) as real)
  {
    var n := (|eps| - 1) as real;
    assert (k - i) as real / n == k as real / n - i as real / n;
  }

  /** An episode outranks another if its lead in importance exceeds 0.6 of the share of the journal by which it
      is older, or equals it and it is the older one: importance is worth at most 0.6 of recency. */
  lemma OutranksMeans(eps: seq<Episode>, i: nat, k: nat)
    requires i < |eps| && k < |eps| && |eps| >= 2
    ensures var lead := eps[i].importance - eps[k].importance;
            var age := 0.6 * ((k - i) as real / (|eps| - 1) as real);
            Outranks(eps, i, k) <==> lead > age || (lead == age && i < k)
  {
    hide Score;
    ScoreGap(eps, i, k);
  }

  /** `out` is as many of the retained episodes as asked for, in chronological order, and whatever is
      left out is outranked by everything kept. */
  ghost predicate Recalls(eps: seq<Episode>, n: int, out: seq<Episode>) {
    && |out| == (if n <= 0 then 0 else if |eps| <= n then |eps| else n)
    && Increasing(out) && Among(out, eps)
    && forall i, k :: 0 <= i < |eps| && 0 <= k < |eps| && eps[i] in out && eps[k] !in out ==>
      |eps| >= 2 && Outranks(eps, i, k)
  }

  /** The same order with ties resolved by age. */
  predicate ByScoreThenSeq(a: Rating, b: Rating) {
    a.score > b.score || (a.score == b.score && a.episode.seqNo <= b.episode.seqNo)
  }

  lemma RatingsSorted(eps: seq<Episode>)
    requires Increasing(eps) && |eps| >= 2
    ensures var sorted := SortStable(ByScore, Ratings(eps));
            Ordered(ByScoreThenSeq, sorted) && Untied(ByScoreThenSeq, sorted)
  {
    var rs := Ratings(eps);
    assert Agree(ByScore, ByScoreThenSeq, rs);
    assert Untied(ByScoreThenSeq, rs);
    SortSameOrder(ByScore, ByScoreThenSeq, rs);
    SortOrdered(ByScoreThenSeq, rs, rs);
    SortUntied(ByScoreThenSeq, rs);
  }

  /** Position `k` of the ratings, best first, holds the rating of some episode. */
  lemma RatingOf(eps: seq<Episode>, k: nat) returns (j: nat)
    requires |eps| >= 2 && k < |eps|
    ensures j < |eps| && SortStable(ByScore, Ratings(eps))[k] == Ratings(eps)[j]
  {
    var rs, sorted := Ratings(eps), SortStable(ByScore, Ratings(eps));
    SortMembers(ByScore, rs);
    assert sorted[k] in sorted;
    j :| 0 <= j < |rs| && rs[j] == sorted[k];
  }

  /** Every episode's rating is somewhere among them. */
  lemma PlaceOf(eps: seq<Episode>, j: nat) returns (k: nat)
    requires |eps| >= 2 && j < |eps|
    ensures k < |eps| && SortStable(ByScore, Ratings(eps))[k] == Ratings(eps)[j]
  {
    var rs, sorted := Ratings(eps), SortStable(ByScore, Ratings(eps));
    SortMembers(ByScore, rs);
    assert rs[j] in sorted;
    k :| 0 <= k < |sorted| && sorted[k] == rs[j];
  }

  /** `chosen` are the episodes of the `n` best ratings. */
  ghost predicate Best(eps: seq<Episode>, n: nat, chosen: seq<Episode>) {
    && 2 <= |eps| && n <= |eps| && |chosen| == n
    && forall k :: 0 <= k < n ==> chosen[k] == SortStable(ByScore, Ratings(eps))[k].episode
  }

  lemma BestUntied(eps: seq<Episode>, n: nat, chosen: seq<Episode>)
    requires Increasing(eps) && Best(eps, n, chosen)
    ensures Untied(BySeq, chosen) && Among(chosen, eps)
  {
    RatingsSorted(eps);
    forall k | 0 <= k < n ensures chosen[k] in eps {
      var j := RatingOf(eps, k);
    }
    forall i, k | 0 <= i < k < n ensures chosen[i].seqNo != chosen[k].seqNo {
      var a := RatingOf(eps, i);
      var b := RatingOf(eps, k);
      var sorted := SortStable(ByScore, Ratings(eps));
      assert !Tied(ByScoreThenSeq, sorted[i], sorted[k]);
    }
  }

  /** An episode that is not chosen is outranked by every chosen one. */
  lemma BestOutrank(eps: seq<Episode>, n: nat, chosen: seq<Episode>, i: nat, k: nat)
    requires Increasing(eps) && Best(eps, n, chosen) && i < |eps| && k < |eps|
    requires eps[i] in chosen && eps[k] !in chosen
    ensures Outranks(eps, i, k)
  {
    RatingsSorted(eps);
    var sorted := SortStable(ByScore, Ratings(eps));
    var a :| 0 <= a < n && chosen[a] == eps[i];
    var j := RatingOf(eps, a);
    assert j == i;
    var b := PlaceOf(eps, k);
    assert sorted[b].episode == eps[k];
    assert ByScoreThenSeq(sorted[a], sorted[b]);
  }

  lemma BestRecalls(eps: seq<Episode>, n: nat, chosen: seq<Episode>)
    requires Increasing(eps) && 1 <= n < |eps| && Best(eps, n, chosen)
    ensures Recalls(eps, n, SortStable(BySeq, chosen))
  {
    hide Outranks;
    var out := SortStable(BySeq, chosen);
    BestUntied(eps, n, chosen);
    SortMembers(BySeq, chosen);
    SortOrdered(BySeq, chosen, chosen);
    SortUntied(BySeq, chosen);
    forall i, j | 0 <= i < j < |out| ensures out[i].seqNo < out[j].seqNo {
      assert BySeq(out[i], out[j]) && !Tied(BySeq, out[i], out[j]);
    }
    forall i | 0 <= i < |out| ensures out[i] in eps {
      assert out[i] in chosen;
    }
    forall i, k | 0 <= i < |eps| && 0 <= k < |eps| && eps[i] in out && eps[k] !in out ensures Outranks(eps, i, k) {
      BestOutrank(eps, n, chosen, i, k);
    }
  }

  // ----- the recall is determined -----

  ghost function Members(eps: seq<Episode>): set<Episode> {
    set e | e in eps
  }

  lemma {:induction false} MembersCount(eps: seq<Episode>)
    requires Increasing(eps)
    ensures |Members(eps)| == |eps|
  {
    if eps != [] {
      var init, e := eps[..|eps| - 1], eps[|eps| - 1];
      MembersCount(init);
      assert eps == init + [e];
      assert Members(eps) == Members(init) + {e};
      assert e !in init;
    }
  }

  lemma {:induction false} SubsetCount<T>(a: set<T>, b: set<T>)
    requires a <= b
    ensures |a| <= |b| && (|a| == |b| ==> a == b)
  {
    if x :| x in a {
      SubsetCount(a - {x}, b - {x});
    }
  }

  /** Two recalls cannot differ by an exchange. */
  lemma NoExchange(eps: seq<Episode>, n: int, a: seq<Episode>, b: seq<Episode>, x: Episode, y: Episode)
    requires Recalls(eps, n, a) && Recalls(eps, n, b) && x in a && y in b
    ensures x in b || y in a
  {
    var i :| 0 <= i < |eps| && eps[i] == x;
    var k :| 0 <= k < |eps| && eps[k] == y;
  }

  /** Whatever one recall holds, so does the other. */
  lemma RecallsSame(eps: seq<Episode>, n: int, a: seq<Episode>, b: seq<Episode>)
    requires Recalls(eps, n, a) && Recalls(eps, n, b)
    ensures Members(a) <= Members(b)
  {
    MembersCount(a);
    MembersCount(b);
    if Members(b) <= Members(a) {
      SubsetCount(Members(b), Members(a));
    } else {
      var y :| y in Members(b) && y !in Members(a);
      forall x | x in Members(a) ensures x in Members(b) {
        NoExchange(eps, n, a, b, x, y);
      }
    }
  }

  /** There is only one way to recall `n` episodes. */
  lemma RecallsUnique(eps: seq<Episode>, n: int, a: seq<Episode>, b: seq<Episode>)
    requires Recalls(eps, n, a) && Recalls(eps, n, b)
    ensures a == b
  {
    RecallsSame(eps, n, a, b);
    RecallsSame(eps, n, b, a);
    assert forall x :: x in a <==> x in Members(a);
    assert forall x :: x in b <==> x in Members(b);
    forall x | x in a ensures Ties(BySeq, a, x) == Ties(BySeq, b, x) {
      assert x in Members(b);
      UntiedTies(BySeq, a, x);
      UntiedTies(BySeq, b, x);
    }
    assert Ranks(BySeq, a);
    forall i | 0 <= i < |b| ensures b[i] in a {
      assert b[i] in Members(b);
    }
    OnlyOneStableSort(BySeq, a, b, a);
  }
}
