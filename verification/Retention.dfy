/**
  Tiered pruning of a backup directory: which full backups the four overlapping tiers keep, and why pruning after
  every backup, or pruning twice, changes nothing.
 */
module RetentionTiers {
  import opened Calendar
  import Sets

  // time.Parse refuses any other date, and such a file counts as foreign.
  type ValidDate = d: Date | IsValid(d) witness Date(0, 1, 1)

  const SECONDS_PER_DAY := 86400

  // A file of the backup directory. A full backup is dated by its name, an incremental by its modification time.
  datatype File =
    | Full(name: string, date: ValidDate, size: nat)
    | Incremental(name: string, modified: int, size: nat)
    | Foreign(name: string, size: nat)
  {
    function Time(): int {
      match this
      case Full(_, date, _) => DayNumber(date) * SECONDS_PER_DAY
      case Incremental(_, modified, _) => modified
      case Foreign(_, _) => 0
    }
  }

  datatype Config = Config(maxBackups: int, keepWeekly: int, keepMonthly: int, keepYearly: int) {
    function Normalize(): Config {
      Config(if maxBackups < 1 then 1 else maxBackups,
             if keepWeekly < 0 then 0 else keepWeekly,
             if keepMonthly < 0 then 0 else keepMonthly,
             if keepYearly < 0 then 0 else keepYearly)
    }
  }

  datatype Tier = Yearly | Monthly | Weekly | Daily

  predicate InTier(t: Tier, f: File) {
    f.Full? &&
    match t
    case Yearly => f.date.month == 1 && f.date.day == 1
    case Monthly => f.date.day == 1
    case Weekly => IsSunday(f.date)
    case Daily => true
  }

  // How many files a tier keeps; keepNewest treats a count of zero or less as keeping none.
  function Limit(c: Config, t: Tier): int {
    match t
    case Yearly => c.Normalize().keepYearly
    case Monthly => c.Normalize().keepMonthly
    case Weekly => c.Normalize().keepWeekly
    case Daily => c.Normalize().maxBackups
  }

  // A rank says which of two files a sorted listing puts later.
  type Rank = File -> int

  ghost function Later(s: set<File>, t: Tier, rank: Rank, f: File): set<File> {
    set g | g in s && InTier(t, g) && rank(g) > rank(f)
  }

  // f is among the newest files of its tier.
  ghost predicate KeptBy(s: set<File>, c: Config, rank: Rank, t: Tier, f: File) {
    f in s && InTier(t, f) && |Later(s, t, rank, f)| < Limit(c, t)
  }

  ghost function KeptLater(s: set<File>, c: Config, rank: Rank, t: Tier, f: File): set<File> {
    set g | g in Later(s, t, rank, f) && KeptBy(s, c, rank, t, g)
  }

  // The files of s that some tier keeps.
  ghost function Kept(s: set<File>, c: Config, rank: Rank): set<File> {
    set f | f in s && exists t :: KeptBy(s, c, rank, t, f)
  }

  ghost predicate Injective(s: set<File>, rank: Rank) {
    forall f, g | f in s && g in s && f != g :: rank(f) != rank(g)
  }

  // rank orders s as some sort by date could: never against the dates, in any order among equal ones.
  ghost predicate RespectsTime(s: set<File>, rank: Rank) {
    Injective(s, rank) && forall f, g | f in s && g in s && f.Time() < g.Time() :: rank(f) < rank(g)
  }

  ghost predicate DistinctDates(s: set<File>) {
    forall f, g | f in s && g in s && f != g :: f.Time() != g.Time()
  }

  // ---- Path independence ----

  // Of the files later than f in its tier, at least as many as the tier keeps are themselves kept.
  lemma {:induction false} EnoughLaterAreKept(s: set<File>, c: Config, rank: Rank, t: Tier, f: File)
    requires Injective(s, rank) && f in s && InTier(t, f)
    requires |Later(s, t, rank, f)| >= Limit(c, t)
    ensures |KeptLater(s, c, rank, t, f)| >= Limit(c, t)
    decreases |Later(s, t, rank, f)|
  {
    var later := Later(s, t, rank, f);
    if later == {} {
      return;
    }
    var first := Earliest(later, rank);
    assert Later(s, t, rank, first) == later - {first};
    if |later| == Limit(c, t) {
      forall g | g in later
        ensures KeptBy(s, c, rank, t, g)
      {
        Sets.SubsetSize(Later(s, t, rank, g), later - {first});
      }
      assert KeptLater(s, c, rank, t, f) == later;
    } else {
      EnoughLaterAreKept(s, c, rank, t, first);
      Sets.SubsetSize(KeptLater(s, c, rank, t, first), KeptLater(s, c, rank, t, f));
    }
  }

  lemma {:induction false} Earliest(s: set<File>, rank: Rank) returns (f: File)
    requires s != {}
    ensures f in s && forall g | g in s :: rank(f) <= rank(g)
  {
    f :| f in s;
    if s != {f} {
      var rest := s - {f};
      assert s == rest + {f};
      var g := Earliest(rest, rank);
      f := if rank(g) < rank(f) then g else f;
    }
  }

  // Dropping files that a tier does not keep leaves what the tier keeps.
  lemma TierIgnoresPruned(all: set<File>, some: set<File>, c: Config, rank: Rank, t: Tier)
    requires Injective(all, rank) && some <= all
    requires forall f | KeptBy(all, c, rank, t, f) :: f in some
    ensures forall f :: KeptBy(all, c, rank, t, f) <==> KeptBy(some, c, rank, t, f)
  {
    forall f
      ensures KeptBy(all, c, rank, t, f) <==> KeptBy(some, c, rank, t, f)
    {
      if f in some && InTier(t, f) {
        Sets.SubsetSize(Later(some, t, rank, f), Later(all, t, rank, f));
        if !KeptBy(all, c, rank, t, f) {
          EnoughLaterAreKept(all, c, rank, t, f);
          Sets.SubsetSize(KeptLater(all, c, rank, t, f), Later(some, t, rank, f));
        }
      }
    }
  }

  /**
    Pruning is path independent: pruning a history, adding files and pruning again keeps what one pruning of
    everything would keep.
   */
  lemma PruningIsPathIndependent(history: set<File>, added: set<File>, c: Config, rank: Rank)
    requires Injective(history + added, rank)
    ensures Kept(Kept(history, c, rank) + added, c, rank) == Kept(history + added, c, rank)
  {
    var all := history + added;
    var some := Kept(history, c, rank) + added;
    forall t, f
      ensures KeptBy(all, c, rank, t, f) <==> KeptBy(some, c, rank, t, f)
    {
      forall g | KeptBy(all, c, rank, t, g)
        ensures g in some
      {
        if g in history {
          Sets.SubsetSize(Later(history, t, rank, g), Later(all, t, rank, g));
          assert KeptBy(history, c, rank, t, g);
        }
      }
      TierIgnoresPruned(all, some, c, rank, t);
    }
  }

  /** With distinct dates every sort by date keeps the same files. */
  lemma SortOrderIsIrrelevant(s: set<File>, c: Config, rank: Rank)
    requires DistinctDates(s) && RespectsTime(s, rank)
    ensures Kept(s, c, rank) == Kept(s, c, (f: File) => f.Time())
  {
    var byTime := (f: File) => f.Time();
    forall t, f | f in s
      ensures Later(s, t, rank, f) == Later(s, t, byTime, f)
    {
    }
    forall t, f
      ensures KeptBy(s, c, rank, t, f) <==> KeptBy(s, c, byTime, t, f)
    {
    }
  }

  // ---- Fixpoint ----

  lemma SameTimeSameTier(f: File, g: File, t: Tier)
    requires f.Full? && g.Full? && f.Time() == g.Time()
    ensures InTier(t, f) <==> InTier(t, g)
  {
    DayNumberOrders(f.date, g.date);
  }

  /**
    Pruning is a fixpoint: any part of what a first pruning kept survives a second one whole, whatever order the
    two unstable sorts gave to backups of the same date.
   */
  lemma PruningKeepsWhatItKept(s: set<File>, c: Config, rank: Rank, rest: set<File>, rank': Rank)
    requires RespectsTime(s, rank) && RespectsTime(rest, rank') && rest <= Kept(s, c, rank)
    ensures Kept(rest, c, rank') == rest
  {
    forall f | f in rest
      ensures f in Kept(rest, c, rank')
    {
      KeptFileSurvives(s, c, rank, rest, rank', f);
    }
  }

  lemma KeptFileSurvives(s: set<File>, c: Config, rank: Rank, rest: set<File>, rank': Rank, f: File)
    requires RespectsTime(s, rank) && RespectsTime(rest, rank') && rest <= Kept(s, c, rank)
    requires f in rest
    ensures exists t :: KeptBy(rest, c, rank', t, f)
  {
    var sameDay := set g | g in Kept(s, c, rank) && g.Time() == f.Time();
    assert f in sameDay;
    var first := Earliest(sameDay, rank);
    var t :| KeptBy(s, c, rank, t, first);
    SameTimeSameTier(first, f, t);
    var later := Later(s, t, rank, first);
    var later' := Later(rest, t, rank', f);
    forall g | g in later'
      ensures g in later + {first}
    {
      assert g.Time() >= f.Time();
      if g.Time() == f.Time() {
        assert g in sameDay;
      }
    }
    if first in later' {
      assert f in later;
      Sets.SubsetSize(later', later + {first} - {f});
      assert |later + {first} - {f}| <= |later|;
    } else {
      Sets.SubsetSize(later', later);
    }
    assert KeptBy(rest, c, rank', t, f);
  }
}

/** The sweep over one directory: list, mark, delete, then delete oldest first until the size cap holds. */
module RetentionSweep {
  import opened RetentionTiers

  predicate InTimeOrder(list: seq<File>) {
    forall i, j | 0 <= i < j < |list| :: list[i].Time() <= list[j].Time()
  }

  ghost predicate NoRepeats<T(!new)>(list: seq<T>) {
    forall i, j | 0 <= i < j < |list| :: list[i] != list[j]
  }

  ghost function Elements(list: seq<File>): set<File> {
    set f | f in list
  }

  // Some outcome of sorting a set of files by date.
  ghost predicate IsListing(list: seq<File>, s: set<File>) {
    InTimeOrder(list) && NoRepeats(list) && Elements(list) == s
  }

  function Position(list: seq<File>, f: File): int {
    if list == [] then 0 else if list[0] == f then 0 else 1 + Position(list[1..], f)
  }

  // The rank that a listing gives its files.
  ghost function RankIn(list: seq<File>): Rank {
    (f: File) => Position(list, f)
  }

  lemma {:induction false} PositionAt(list: seq<File>, i: nat)
    requires NoRepeats(list) && i < |list|
    ensures Position(list, list[i]) == i
  {
    if i > 0 {
      assert list[1..][i - 1] == list[i];
      PositionAt(list[1..], i - 1);
    }
  }

  lemma ListingRespectsTime(list: seq<File>, s: set<File>)
    requires IsListing(list, s)
    ensures RespectsTime(s, RankIn(list))
  {
    forall f, g | f in s && g in s && f != g
      ensures RankIn(list)(f) != RankIn(list)(g) && (f.Time() < g.Time() ==> RankIn(list)(f) < RankIn(list)(g))
    {
      var i :| 0 <= i < |list| && list[i] == f;
      var j :| 0 <= j < |list| && list[j] == g;
      PositionAt(list, i);
      PositionAt(list, j);
    }
  }

  function Total(list: seq<File>): nat {
    if list == [] then 0 else list[0].size + Total(list[1..])
  }

  function Names(list: seq<File>): seq<string> {
    seq(|list|, i requires 0 <= i < |list| => list[i].name)
  }

  ghost function Fulls(s: set<File>): set<File> {
    set f | f in s && f.Full?
  }

  ghost function Incrementals(s: set<File>): set<File> {
    set f | f in s && f.Incremental?
  }

  ghost predicate NamesIdentify(s: set<File>) {
    forall f, g | f in s && g in s && f.name == g.name :: f == g
  }

  // What one sweep decided: the order its listings came in and how many files the cap pass took.
  datatype Sweep = Sweep(listed: seq<File>, pruned: seq<File>, remaining: seq<File>, cut: nat)

  // A cap of zero is a disabled cap.
  ghost predicate IsCut(remaining: seq<File>, cap: nat, cut: nat) {
    && cut <= |remaining|
    && (cap == 0 ==> cut == 0)
    && (cap > 0 ==> Total(remaining[cut..]) <= cap)
    && (cut > 0 ==> Total(remaining[cut - 1..]) > cap)
  }

  ghost predicate IsSweep(files: set<File>, c: Config, cap: nat, w: Sweep) {
    var kept := Kept(Fulls(files), c, RankIn(w.listed));
    && IsListing(w.listed, Fulls(files))
    && IsListing(w.pruned, Fulls(files) - kept)
    && IsListing(w.remaining, kept + Incrementals(files))
    && IsCut(w.remaining, cap, w.cut)
  }

  ghost function Survivors(files: set<File>, w: Sweep): set<File>
    requires w.cut <= |w.remaining|
  {
    files - Elements(w.pruned) - Elements(w.remaining[..w.cut])
  }

  // ---- The cap pass ----

  lemma {:induction false} TotalShrinks(list: seq<File>, i: nat, j: nat)
    requires i <= j <= |list|
    ensures Total(list[j..]) <= Total(list[i..])
    decreases j - i
  {
    if i < j {
      assert list[i..][1..] == list[i + 1..];
      TotalShrinks(list, i + 1, j);
    }
  }

  /**
    The cap pass takes the shortest oldest-first prefix that is enough; the newest file goes only if it alone exceeds
    the cap.
   */
  lemma CutIsShortest(remaining: seq<File>, cap: nat, cut: nat)
    requires IsCut(remaining, cap, cut)
    ensures forall k | 0 <= k < cut :: Total(remaining[k..]) > cap
    ensures cut == |remaining| && cut > 0 ==> remaining[cut - 1].size > cap > 0
  {
    forall k | 0 <= k < cut
      ensures Total(remaining[k..]) > cap
    {
      TotalShrinks(remaining, k, cut - 1);
    }
    if cut == |remaining| && cut > 0 {
      assert remaining[cut - 1..] == [remaining[cut - 1]];
      assert [remaining[cut - 1]][1..] == [];
    }
  }

  lemma {:induction false} TotalIsPermutationInvariant(a: seq<File>, b: seq<File>)
    requires NoRepeats(a) && NoRepeats(b) && Elements(a) == Elements(b)
    ensures Total(a) == Total(b)
    decreases |a|
  {
    if a == [] {
      EmptyListing(b);
    } else {
      assert a[0] in Elements(a);
      var i :| 0 <= i < |b| && b[i] == a[0];
      var b' := b[..i] + b[i + 1..];
      TotalWithout(b, i);
      SameElementsWithout(a, b, i);
      TotalIsPermutationInvariant(a[1..], b');
    }
  }

  lemma EmptyListing(list: seq<File>)
    ensures Elements(list) == {} ==> list == []
  {
    if list != [] {
      assert list[0] in Elements(list);
    }
  }

  lemma SameElementsWithout(a: seq<File>, b: seq<File>, i: nat)
    requires a != [] && i < |b| && b[i] == a[0]
    requires NoRepeats(a) && NoRepeats(b) && Elements(a) == Elements(b)
    ensures NoRepeats(a[1..]) && NoRepeats(b[..i] + b[i + 1..])
    ensures Elements(a[1..]) == Elements(b[..i] + b[i + 1..])
  {
    var b' := b[..i] + b[i + 1..];
    assert Elements(a[1..]) == Elements(a) - {a[0]};
    forall f
      ensures f in b' <==> f in b && f != b[i]
    {
      if f in b && f != b[i] {
        var k :| 0 <= k < |b| && b[k] == f;
        assert b'[if k < i then k else k - 1] == f;
      }
    }
  }

  lemma {:induction false} TotalWithout(list: seq<File>, i: nat)
    requires i < |list|
    ensures Total(list) == list[i].size + Total(list[..i] + list[i + 1..])
  {
    if i == 0 {
      assert list[..0] + list[1..] == list[1..];
    } else {
      TotalWithout(list[1..], i - 1);
      assert (list[..i] + list[i + 1..])[1..] == list[1..][..i - 1] + list[1..][i..];
    }
  }

  // ---- Whole sweeps ----

  /**
    The sweep is a fixpoint: a second sweep with the same settings deletes nothing, however the unstable sort
    orders backups of the same date in either run.
   */
  lemma SecondSweepDeletesNothing(files: set<File>, c: Config, cap: nat, w: Sweep, w': Sweep)
    requires IsSweep(files, c, cap, w)
    requires IsSweep(Survivors(files, w), c, cap, w')
    ensures w'.pruned == [] && w'.cut == 0
    ensures Survivors(Survivors(files, w), w') == Survivors(files, w)
  {
    var files' := Survivors(files, w);
    var kept := Kept(Fulls(files), c, RankIn(w.listed));
    ListingRespectsTime(w.listed, Fulls(files));
    ListingRespectsTime(w'.listed, Fulls(files'));
    assert Fulls(files') <= kept;
    PruningKeepsWhatItKept(Fulls(files), c, RankIn(w.listed), Fulls(files'), RankIn(w'.listed));
    EmptyListing(w'.pruned);
    RemainderIsSuffix(files, c, cap, w);
    assert Elements(w'.remaining) == Elements(w.remaining[w.cut..]);
    TotalIsPermutationInvariant(w'.remaining, w.remaining[w.cut..]);
    assert w'.remaining[0..] == w'.remaining;
    if w'.cut > 0 {
      CutIsShortest(w'.remaining, cap, w'.cut);
    }
  }

  lemma RemainderIsSuffix(files: set<File>, c: Config, cap: nat, w: Sweep)
    requires IsSweep(files, c, cap, w)
    ensures var files' := Survivors(files, w); Fulls(files') + Incrementals(files') == Elements(w.remaining[w.cut..])
    ensures NoRepeats(w.remaining[w.cut..])
  {
    var files' := Survivors(files, w);
    forall f
      ensures f in Fulls(files') + Incrementals(files') <==> f in Elements(w.remaining[w.cut..])
    {
      InOnePart(w.remaining, w.cut, f);
      assert f in Elements(w.remaining) <==> f in w.remaining;
    }
  }

  lemma InOnePart(list: seq<File>, cut: nat, f: File)
    requires cut <= |list|
    ensures f in list <==> f in list[..cut] || f in list[cut..]
  {
    assert list == list[..cut] + list[cut..];
  }

  // A new full backup lands in the directory and an uncapped sweep follows.
  ghost predicate BackupThenSweep(dir: set<File>, f: File, c: Config, w: Sweep, dir': set<File>) {
    f.Full? && IsSweep(dir + {f}, c, 0, w) && dir' == Survivors(dir + {f}, w)
  }

  /**
    Sweeping after each new backup (distinct dates, no cap) leaves the full backups that one sweep over the whole
    history would keep.
   */
  lemma {:induction false} SweepingEachBackupIsSweepingOnce(
      history: seq<File>, dirs: seq<set<File>>, sweeps: seq<Sweep>, c: Config)
    requires |dirs| == |history| + 1 && |sweeps| == |history|
    requires Fulls(dirs[0]) == {} && DistinctDates(Elements(history))
    requires forall i | 0 <= i < |history| :: BackupThenSweep(dirs[i], history[i], c, sweeps[i], dirs[i + 1])
    ensures Fulls(dirs[|history|]) == Kept(Elements(history), c, (f: File) => f.Time())
    decreases |history|
  {
    if history == [] {
      assert Elements(history) == {};
    } else {
      var n := |history| - 1;
      var before := history[..n];
      assert Elements(history) == Elements(before) + {history[n]} by {
        assert history == before + [history[n]];
      }
      SweepingEachBackupIsSweepingOnce(before, dirs[..n + 1], sweeps[..n], c);
      OneMoreBackup(Elements(before), dirs[n], history[n], c, sweeps[n], dirs[n + 1]);
    }
  }

  lemma OneMoreBackup(before: set<File>, dir: set<File>, f: File, c: Config, w: Sweep, dir': set<File>)
    requires BackupThenSweep(dir, f, c, w, dir') && DistinctDates(before + {f})
    requires Fulls(dir) == Kept(before, c, (g: File) => g.Time())
    ensures Fulls(dir') == Kept(before + {f}, c, (g: File) => g.Time())
  {
    var byTime := (g: File) => g.Time();
    assert Fulls(dir + {f}) == Kept(before, c, byTime) + {f};
    OneUncappedSweep(dir + {f}, c, w);
    PruningIsPathIndependent(before, {f}, c, byTime);
  }

  lemma OneUncappedSweep(files: set<File>, c: Config, w: Sweep)
    requires IsSweep(files, c, 0, w) && DistinctDates(Fulls(files))
    ensures Fulls(Survivors(files, w)) == Kept(Fulls(files), c, (f: File) => f.Time())
  {
    ListingRespectsTime(w.listed, Fulls(files));
    SortOrderIsIrrelevant(Fulls(files), c, RankIn(w.listed));
    assert w.remaining[..0] == [];
    assert Elements([]) == {};
  }
}

/** The sweep as the program runs it: listings, a growing set of kept paths, deletions one at a time. */
module RetentionDirectory {
  import opened Calendar
  import opened RetentionTiers
  import opened RetentionSweep

  function OfTier(list: seq<File>, t: Tier): seq<File> {
    if list == [] then [] else
      var n := |list| - 1;
      if InTier(t, list[n]) then OfTier(list[..n], t) + [list[n]] else OfTier(list[..n], t)
  }

  // list[start:] where start = max(0, len(list) - n), and nothing at all when n <= 0.
  function Newest(list: seq<File>, n: int): seq<File> {
    if n <= 0 then [] else if |list| <= n then list else list[|list| - n..]
  }

  function NameSet(list: seq<File>): set<string> {
    set f | f in list :: f.name
  }

  // The paths one tier marks as kept.
  function Marks(list: seq<File>, c: Config, t: Tier): set<string> {
    NameSet(Newest(OfTier(list, t), Limit(c, t)))
  }

  function AllMarks(list: seq<File>, c: Config): set<string> {
    Marks(list, c, Yearly) + Marks(list, c, Monthly) + Marks(list, c, Weekly) + Marks(list, c, Daily)
  }

  lemma {:induction false} OfTierSplits(list: seq<File>, t: Tier, i: nat)
    requires i <= |list|
    ensures OfTier(list, t) == OfTier(list[..i], t) + OfTier(list[i..], t)
    decreases |list|
  {
    if i == |list| {
      assert list[..i] == list;
    } else {
      var n := |list| - 1;
      OfTierSplits(list[..n], t, i);
      assert list[..n][..i] == list[..i] && list[..n][i..] == list[i..][..n - i];
    }
  }

  lemma {:induction false} OfTierElements(list: seq<File>, t: Tier)
    ensures forall f :: f in OfTier(list, t) <==> f in list && InTier(t, f)
    ensures NoRepeats(list) ==> NoRepeats(OfTier(list, t))
  {
    if list != [] {
      var n := |list| - 1;
      OfTierElements(list[..n], t);
      assert list == list[..n] + [list[n]];
    }
  }

  lemma ElementsSnoc(list: seq<File>, f: File)
    ensures Elements(list + [f]) == Elements(list) + {f}
  {
  }

  lemma OneMoreElement(list: seq<File>, i: nat)
    requires NoRepeats(list) && i < |list|
    ensures list[i] in Elements(list) && list[i] !in list[..i] && list[i] !in Elements(list[..i])
    ensures Elements(list[..i + 1]) == Elements(list[..i]) + {list[i]}
    ensures Names(list[..i + 1]) == Names(list[..i]) + [list[i].name]
  {
    assert list[..i + 1] == list[..i] + [list[i]];
  }

  lemma {:induction false} ListSize(list: seq<File>)
    requires NoRepeats(list)
    ensures |Elements(list)| == |list|
  {
    if list == [] {
      assert Elements(list) == {};
    } else {
      var n := |list| - 1;
      ListSize(list[..n]);
      assert list == list[..n] + [list[n]];
      assert Elements(list) == Elements(list[..n]) + {list[n]};
    }
  }

  lemma LaterInListing(list: seq<File>, s: set<File>, t: Tier, i: nat)
    requires IsListing(list, s) && i < |list|
    ensures |Later(s, t, RankIn(list), list[i])| == |OfTier(list[i + 1..], t)|
  {
    var rest := list[i + 1..];
    OfTierElements(rest, t);
    ListSize(OfTier(rest, t));
    PositionAt(list, i);
    forall g
      ensures g in Later(s, t, RankIn(list), list[i]) <==> g in Elements(OfTier(rest, t))
    {
      if g in s {
        var k :| 0 <= k < |list| && list[k] == g;
        PositionAt(list, k);
        if k > i {
          assert rest[k - i - 1] == g;
        }
      }
    }
    assert Later(s, t, RankIn(list), list[i]) == Elements(OfTier(rest, t));
  }

  lemma InNewest(list: seq<File>, n: int, p: nat)
    requires NoRepeats(list) && p < |list|
    ensures list[p] in Newest(list, n) <==> |list| - p - 1 < n
  {
    var newest := Newest(list, n);
    var start := |list| - |newest|;
    assert newest == list[start..];
    InSuffix(list, start, p);
  }

  lemma InSuffix(list: seq<File>, start: nat, p: nat)
    requires NoRepeats(list) && p < |list| && start <= |list|
    ensures list[p] in list[start..] <==> start <= p
  {
    if start <= p {
      assert list[start..][p - start] == list[p];
    } else {
      assert forall k | start <= k < |list| :: list[k] != list[p];
    }
  }

  lemma PlaceInTier(list: seq<File>, t: Tier, i: nat)
    requires i < |list| && InTier(t, list[i])
    ensures var tier, p := OfTier(list, t), |OfTier(list[..i], t)|;
            p < |tier| && tier[p] == list[i] && |tier| - p - 1 == |OfTier(list[i + 1..], t)|
  {
    OfTierSplits(list, t, i + 1);
    assert list[..i + 1][..i] == list[..i];
  }

  /** Keeping the newest n of a tier's sorted list keeps the files with fewer than n later ones in the tier. */
  lemma NewestAreKept(list: seq<File>, s: set<File>, c: Config, t: Tier, f: File)
    requires IsListing(list, s)
    ensures f in Newest(OfTier(list, t), Limit(c, t)) <==> KeptBy(s, c, RankIn(list), t, f)
  {
    OfTierElements(list, t);
    if f in list && InTier(t, f) {
      var i :| 0 <= i < |list| && list[i] == f;
      PlaceInTier(list, t, i);
      LaterInListing(list, s, t, i);
      InNewest(OfTier(list, t), Limit(c, t), |OfTier(list[..i], t)|);
    } else {
      assert forall g | g in Newest(OfTier(list, t), Limit(c, t)) :: g in OfTier(list, t);
      assert f !in s || !InTier(t, f);
    }
  }

  // ---- What is kept, spelled out ----

  // The places behind i of the first of January, of firsts of a month and of Sundays.
  function NewYearsBehind(list: seq<File>, i: nat): set<nat> {
    set j | i < j < |list| && list[j].Full? && list[j].date.month == 1 && list[j].date.day == 1
  }

  function FirstsBehind(list: seq<File>, i: nat): set<nat> {
    set j | i < j < |list| && list[j].Full? && list[j].date.day == 1
  }

  function SundaysBehind(list: seq<File>, i: nat): set<nat> {
    set j | i < j < |list| && list[j].Full? && IsAnySunday(list[j].date)
  }

  // January 7, 2024 was a Sunday.
  predicate IsAnySunday(d: Date)
    requires IsValid(d)
  {
    (DayNumber(d) - DayNumber(Date(2024, 1, 7))) % 7 == 0
  }

  // Whether a sweep keeps the backup at place i of a listing in date order. A negative count keeps none, and at least
  // the newest backup stays.
  predicate IsToBeKept(list: seq<File>, i: nat, c: Config)
    requires i < |list| && list[i].Full?
  {
    var d := list[i].date;
    || (d.month == 1 && d.day == 1 && |NewYearsBehind(list, i)| < c.keepYearly)
    || (d.day == 1 && |FirstsBehind(list, i)| < c.keepMonthly)
    || (IsAnySunday(d) && |SundaysBehind(list, i)| < c.keepWeekly)
    || |list| - i - 1 < c.maxBackups || i == |list| - 1
  }

  function PlacesBehind(list: seq<File>, i: nat, t: Tier): set<nat> {
    set j | i < j < |list| && InTier(t, list[j])
  }

  lemma PlacesBehindSnoc(front: seq<File>, last: File, i: nat, t: Tier)
    requires i < |front|
    ensures |PlacesBehind(front + [last], i, t)| == |PlacesBehind(front, i, t)| + if InTier(t, last) then 1 else 0
  {
    var all := front + [last];
    assert PlacesBehind(all, i, t) == PlacesBehind(front, i, t) + if InTier(t, last) then {|front|} else {};
  }

  lemma OfTierSnoc(front: seq<File>, last: File, t: Tier)
    ensures OfTier(front + [last], t) == if InTier(t, last) then OfTier(front, t) + [last] else OfTier(front, t)
  {
    assert (front + [last])[..|front|] == front;
  }

  lemma {:induction false} PlacesBehindSize(list: seq<File>, i: nat, t: Tier)
    requires i < |list|
    ensures |PlacesBehind(list, i, t)| == |OfTier(list[i + 1..], t)|
    decreases |list|
  {
    var front, last := list[..|list| - 1], list[|list| - 1];
    if i == |list| - 1 {
      assert PlacesBehind(list, i, t) == {};
    } else {
      PlacesBehindSize(front, i, t);
      PlacesBehindSnoc(front, last, i, t);
      OfTierSnoc(front[i + 1..], last, t);
      assert front + [last] == list && front[i + 1..] + [last] == list[i + 1..];
    }
  }

  lemma AllPlacesBehind(list: seq<File>, i: nat)
    requires i < |list| && forall f | f in list :: f.Full?
    ensures |PlacesBehind(list, i, Daily)| == |list| - i - 1
  {
    PlacesBehindSize(list, i, Daily);
    AllOfTier(list[i + 1..], Daily);
  }

  lemma TierPlaces(list: seq<File>, i: nat)
    ensures PlacesBehind(list, i, Yearly) == NewYearsBehind(list, i)
    ensures PlacesBehind(list, i, Monthly) == FirstsBehind(list, i)
    ensures PlacesBehind(list, i, Weekly) == SundaysBehind(list, i)
  {
    forall j | i < j < |list| && list[j].Full?
      ensures InTier(Weekly, list[j]) <==> IsAnySunday(list[j].date)
    {
      SundayIs(list[j].date);
    }
  }

  lemma KeptByPlaces(list: seq<File>, s: set<File>, c: Config, i: nat, t: Tier)
    requires IsListing(list, s) && i < |list|
    ensures KeptBy(s, c, RankIn(list), t, list[i]) <==>
            InTier(t, list[i]) && |PlacesBehind(list, i, t)| < Limit(c, t)
  {
    assert list[i] in Elements(list);
    LaterInListing(list, s, t, i);
    PlacesBehindSize(list, i, t);
  }

  lemma KeptBySomeTier(list: seq<File>, s: set<File>, c: Config, i: nat)
    requires IsListing(list, s) && i < |list|
    ensures list[i] in Kept(s, c, RankIn(list)) <==>
            || KeptBy(s, c, RankIn(list), Yearly, list[i]) || KeptBy(s, c, RankIn(list), Monthly, list[i])
            || KeptBy(s, c, RankIn(list), Weekly, list[i]) || KeptBy(s, c, RankIn(list), Daily, list[i])
  {
    assert list[i] in Elements(list);
    if t :| KeptBy(s, c, RankIn(list), t, list[i]) {
      match t
      case Yearly =>
      case Monthly =>
      case Weekly =>
      case Daily =>
    }
  }

  lemma LimitsAre(c: Config, n: nat)
    ensures n < Limit(c, Yearly) <==> n < c.keepYearly
    ensures n < Limit(c, Monthly) <==> n < c.keepMonthly
    ensures n < Limit(c, Weekly) <==> n < c.keepWeekly
    ensures n < Limit(c, Daily) <==> n < c.maxBackups || n == 0
  {
  }

  /** The tiers keep a full backup exactly as its date, its place in the listing and the configuration's counts say. */
  lemma KeptIff(list: seq<File>, s: set<File>, c: Config, i: nat)
    requires IsListing(list, s) && i < |list| && forall f | f in s :: f.Full?
    ensures list[i].Full?
    ensures list[i] in Kept(s, c, RankIn(list)) <==> IsToBeKept(list, i, c)
  {
    assert list[i] in Elements(list);
    KeptBySomeTier(list, s, c, i);
    KeptYearly(list, s, c, i);
    KeptMonthly(list, s, c, i);
    KeptWeekly(list, s, c, i);
    KeptDaily(list, s, c, i);
  }

  lemma KeptYearly(list: seq<File>, s: set<File>, c: Config, i: nat)
    requires IsListing(list, s) && i < |list| && list[i].Full?
    ensures KeptBy(s, c, RankIn(list), Yearly, list[i]) <==>
            list[i].date.month == 1 && list[i].date.day == 1 && |NewYearsBehind(list, i)| < c.keepYearly
  {
    KeptByPlaces(list, s, c, i, Yearly);
    TierPlaces(list, i);
    LimitsAre(c, |NewYearsBehind(list, i)|);
  }

  lemma KeptMonthly(list: seq<File>, s: set<File>, c: Config, i: nat)
    requires IsListing(list, s) && i < |list| && list[i].Full?
    ensures KeptBy(s, c, RankIn(list), Monthly, list[i]) <==>
            list[i].date.day == 1 && |FirstsBehind(list, i)| < c.keepMonthly
  {
    KeptByPlaces(list, s, c, i, Monthly);
    TierPlaces(list, i);
    LimitsAre(c, |FirstsBehind(list, i)|);
  }

  lemma KeptWeekly(list: seq<File>, s: set<File>, c: Config, i: nat)
    requires IsListing(list, s) && i < |list| && list[i].Full?
    ensures KeptBy(s, c, RankIn(list), Weekly, list[i]) <==>
            IsAnySunday(list[i].date) && |SundaysBehind(list, i)| < c.keepWeekly
  {
    KeptByPlaces(list, s, c, i, Weekly);
    TierPlaces(list, i);
    SundayIs(list[i].date);
    LimitsAre(c, |SundaysBehind(list, i)|);
  }

  lemma KeptDaily(list: seq<File>, s: set<File>, c: Config, i: nat)
    requires IsListing(list, s) && i < |list| && forall f | f in s :: f.Full?
    ensures KeptBy(s, c, RankIn(list), Daily, list[i]) <==> |list| - i - 1 < c.maxBackups || i == |list| - 1
  {
    assert forall f | f in list :: f in Elements(list);
    KeptByPlaces(list, s, c, i, Daily);
    AllPlacesBehind(list, i);
    LimitsAre(c, |list| - i - 1);
  }

  // Of the first n backups of a listing, those a sweep deletes, oldest first.
  function Doomed(list: seq<File>, c: Config, n: nat): seq<File>
    requires n <= |list| && forall f | f in list :: f.Full?
  {
    if n == 0 then [] else
      assert list[n - 1] in list;
      Doomed(list, c, n - 1) + if IsToBeKept(list, n - 1, c) then [] else [list[n - 1]]
  }

  lemma {:induction false} ChosenAreDoomed(list: seq<File>, kept: set<string>, c: Config, n: nat)
    requires n <= |list| && forall f | f in list :: f.Full?
    requires forall i | 0 <= i < |list| :: list[i] in list && (list[i].name in kept <==> IsToBeKept(list, i, c))
    ensures Chosen(list[..n], kept, false) == Doomed(list, c, n)
  {
    if n > 0 {
      ChosenAreDoomed(list, kept, c, n - 1);
      assert list[..n][..n - 1] == list[..n - 1];
    }
  }

  // Earlier dates and modification times first.
  ghost predicate IsInDateOrder(list: seq<File>) {
    forall i, j | 0 <= i < j < |list| :: !IsOlder(list[j], list[i])
  }

  // An incremental's modification time is in seconds since the start of year 0, a full backup counts from midnight.
  predicate IsOlder(a: File, b: File) {
    match (a, b)
    case (Full(_, d, _), Full(_, e, _)) => Before(d, e)
    case (Incremental(_, m, _), Incremental(_, n, _)) => m < n
    case (Full(_, d, _), Incremental(_, n, _)) => DayNumber(d) * 86400 < n
    case (Incremental(_, m, _), Full(_, e, _)) => m < DayNumber(e) * 86400
    case _ => false
  }

  lemma TimeOrderIsDateOrder(list: seq<File>)
    requires InTimeOrder(list)
    ensures IsInDateOrder(list)
  {
    forall i, j | 0 <= i < j < |list|
      ensures !IsOlder(list[j], list[i])
    {
      assert list[i].Time() <= list[j].Time();
      if list[i].Full? && list[j].Full? {
        DayNumberOrders(list[j].date, list[i].date);
      }
    }
  }

  // What a completed sweep did: the cap pass took the shortest prefix of the remaining files that is enough.
  ghost predicate IsSweptAs(files: set<File>, c: Config, cap: nat, w: Sweep) {
    && NoRepeats(w.listed) && IsInDateOrder(w.listed) && (forall f :: f in w.listed <==> f in files && f.Full?)
    && NoRepeats(w.remaining) && IsInDateOrder(w.remaining)
    && (forall f :: f in w.remaining <==>
          || (f in files && f.Incremental?)
          || (f in files && f.Full? &&
              exists i :: 0 <= i < |w.listed| && w.listed[i] == f && IsToBeKept(w.listed, i, c)))
    && w.cut <= |w.remaining| && (cap == 0 ==> w.cut == 0)
    && (cap > 0 ==> Total(w.remaining[w.cut..]) <= cap && forall k | 0 <= k < w.cut :: Total(w.remaining[k..]) > cap)
  }

  lemma SweepIs(files: set<File>, c: Config, cap: nat, w: Sweep)
    requires IsSweep(files, c, cap, w)
    ensures IsSweptAs(files, c, cap, w)
    ensures forall f :: f in w.pruned <==>
                        f in files && f.Full? && f !in w.remaining
  {
    var kept := Kept(Fulls(files), c, RankIn(w.listed));
    TimeOrderIsDateOrder(w.listed);
    TimeOrderIsDateOrder(w.remaining);
    CutIsShortest(w.remaining, cap, w.cut);
    forall f
      ensures f in w.listed <==> f in files && f.Full?
      ensures f in w.remaining <==> f in kept || (f in files && f.Incremental?)
      ensures f in w.pruned <==> f in files && f.Full? && f !in kept
      ensures f in kept ==> f in files && f.Full?
    {
      assert f in Elements(w.listed) <==> f in w.listed;
      assert f in Elements(w.remaining) <==> f in w.remaining;
      assert f in Elements(w.pruned) <==> f in w.pruned;
    }
    forall f
      ensures f in kept <==> f in files && f.Full? && exists i :: 0 <= i < |w.listed| && w.listed[i] == f &&
                                                                  IsToBeKept(w.listed, i, c)
    {
      KeptInListing(files, c, w.listed, f);
    }
  }

  lemma KeptInListing(files: set<File>, c: Config, listed: seq<File>, f: File)
    requires IsListing(listed, Fulls(files))
    ensures f in Kept(Fulls(files), c, RankIn(listed)) <==>
            f in files && f.Full? && exists i :: 0 <= i < |listed| && listed[i] == f && IsToBeKept(listed, i, c)
  {
    assert forall g :: g in listed <==> g in Elements(listed);
    if f in Fulls(files) {
      var i :| 0 <= i < |listed| && listed[i] == f;
      KeptIff(listed, Fulls(files), c, i);
      assert forall j | 0 <= j < |listed| && listed[j] == f :: j == i;
    }
  }

  // The files whose path is marked, or is not.
  function Chosen(list: seq<File>, kept: set<string>, marked: bool): seq<File> {
    if list == [] then [] else
      var n := |list| - 1;
      var rest := Chosen(list[..n], kept, marked);
      if (list[n].name in kept) == marked then rest + [list[n]] else rest
  }

  lemma {:induction false} ChosenMembers(list: seq<File>, kept: set<string>, marked: bool)
    ensures forall f :: f in Chosen(list, kept, marked) <==> f in list && (f.name in kept) == marked
  {
    if list != [] {
      var n := |list| - 1;
      ChosenMembers(list[..n], kept, marked);
      assert list == list[..n] + [list[n]];
    }
  }

  lemma LastIsLatest(list: seq<File>, f: File)
    requires list != [] && InTimeOrder(list) && NoRepeats(list) && f in list[..|list| - 1]
    ensures f.Time() <= list[|list| - 1].Time() && f != list[|list| - 1]
  {
    var i :| 0 <= i < |list| - 1 && list[i] == f;
  }

  lemma {:induction false} ChosenAre(list: seq<File>, kept: set<string>, marked: bool)
    requires InTimeOrder(list) && NoRepeats(list)
    ensures forall f :: f in Chosen(list, kept, marked) <==> f in list && (f.name in kept) == marked
    ensures InTimeOrder(Chosen(list, kept, marked)) && NoRepeats(Chosen(list, kept, marked))
  {
    ChosenMembers(list, kept, marked);
    if list != [] {
      var n := |list| - 1;
      ChosenAre(list[..n], kept, marked);
      var front := Chosen(list[..n], kept, marked);
      forall i | 0 <= i < |front|
        ensures front[i].Time() <= list[n].Time() && front[i] != list[n]
      {
        assert front[i] in front;
        LastIsLatest(list, front[i]);
      }
    }
  }

  lemma ChosenNext(list: seq<File>, i: nat, kept: set<string>)
    requires InTimeOrder(list) && NoRepeats(list) && i < |list|
    ensures list[i] in Elements(list) && list[i] !in Elements(Chosen(list[..i], kept, false))
    ensures var gone := Chosen(list[..i], kept, false);
            if list[i].name in kept then Chosen(list[..i + 1], kept, false) == gone
            else
              && Elements(Chosen(list[..i + 1], kept, false)) == Elements(gone) + {list[i]}
              && Names(Chosen(list[..i + 1], kept, false)) == Names(gone) + [list[i].name]
    ensures Chosen(list[..i + 1], kept, true) ==
            if list[i].name in kept then Chosen(list[..i], kept, true) + [list[i]] else Chosen(list[..i], kept, true)
  {
    assert list[..i + 1][..i] == list[..i];
    ChosenAre(list[..i], kept, false);
  }

  // The two halves of a marked listing are the files to prune and the files to keep.
  lemma ChosenIsSweep(files: set<File>, backups: seq<File>, kept: set<string>, c: Config)
    requires IsListing(backups, Fulls(files))
    requires forall f | f in backups :: f.name in kept <==> f in Kept(Fulls(files), c, RankIn(backups))
    ensures IsListing(Chosen(backups, kept, false), Fulls(files) - Kept(Fulls(files), c, RankIn(backups)))
    ensures Elements(Chosen(backups, kept, true)) == Kept(Fulls(files), c, RankIn(backups))
  {
    ChosenAre(backups, kept, false);
    ChosenAre(backups, kept, true);
    assert forall f | f in backups :: f in Elements(backups);
    assert forall f | f in Fulls(files) :: f in Elements(backups);
  }

  lemma SweepIsDisjoint(files: set<File>, c: Config, w: Sweep)
    requires IsListing(w.listed, Fulls(files))
    requires IsListing(w.pruned, Fulls(files) - Kept(Fulls(files), c, RankIn(w.listed)))
    requires IsListing(w.remaining, Kept(Fulls(files), c, RankIn(w.listed)) + Incrementals(files))
    ensures forall f | f in w.pruned :: f !in w.remaining
  {
    forall f | f in w.pruned
      ensures f !in w.remaining
    {
      assert f in Elements(w.pruned);
      assert f in w.remaining ==> f in Elements(w.remaining);
    }
  }

  class BackupDir {
    var files: set<File>

    ghost predicate Valid()
      reads this
    {
      NamesIdentify(files)
    }

    constructor (files: set<File>)
      requires NamesIdentify(files)
      ensures Valid() && this.files == files
    {
      this.files := files;
    }

    // sort.Slice by date: nothing is promised about files of the same date.
    static method SortByTime(s: set<File>) returns (list: seq<File>)
      ensures IsListing(list, s)
    {
      list := [];
      var rest := s;
      while rest != {}
        invariant IsListing(list, s - rest) && rest <= s
        invariant forall f, g | f in list && g in rest :: f.Time() <= g.Time()
        decreases rest
      {
        ghost var first := Earliest(rest, (f: File) => f.Time());
        assert forall g | g in rest :: first.Time() <= g.Time();
        var f :| f in rest && forall g | g in rest :: f.Time() <= g.Time();
        ElementsSnoc(list, f);
        list := list + [f];
        rest := rest - {f};
      }
    }

    method ListRetained() returns (backups: seq<File>)
      ensures IsListing(backups, Fulls(files))
      ensures IsInDateOrder(backups) && forall f :: f in backups <==> f in files && f.Full?
    {
      backups := SortByTime(set f | f in files && f.Full?);
      TimeOrderIsDateOrder(backups);
      assert forall f :: f in backups <==> f in Elements(backups);
    }

    method ListIncrementals() returns (backups: seq<File>)
      ensures IsListing(backups, Incrementals(files))
      ensures IsInDateOrder(backups) && forall f :: f in backups <==> f in files && f.Incremental?
    {
      backups := SortByTime(set f | f in files && f.Incremental?);
      TimeOrderIsDateOrder(backups);
      assert forall f :: f in backups <==> f in Elements(backups);
    }

    static method KeepNewest(list: seq<File>, n: int, kept: set<string>) returns (kept': set<string>)
      ensures kept' == kept + NameSet(Newest(list, n))
    {
      kept' := kept;
      if n <= 0 {
        return;
      }
      var start := if |list| - n < 0 then 0 else |list| - n;
      var newest := list[start..];
      for i := 0 to |newest|
        invariant kept' == kept + NameSet(newest[..i])
      {
        assert newest[..i + 1] == newest[..i] + [newest[i]];
        kept' := kept' + {newest[i].name};
      }
      assert newest[..|newest|] == newest;
    }

    static method SplitTiers(backups: seq<File>) returns (yearly: seq<File>, monthly: seq<File>, weekly: seq<File>)
      ensures yearly == OfTier(backups, Yearly) && monthly == OfTier(backups, Monthly)
      ensures weekly == OfTier(backups, Weekly)
    {
      yearly, monthly, weekly := [], [], [];
      for i := 0 to |backups|
        invariant yearly == OfTier(backups[..i], Yearly)
        invariant monthly == OfTier(backups[..i], Monthly)
        invariant weekly == OfTier(backups[..i], Weekly)
      {
        assert backups[..i + 1][..i] == backups[..i];
        var b := backups[i];
        if InTier(Yearly, b) {
          yearly := yearly + [b];
        }
        if InTier(Monthly, b) {
          monthly := monthly + [b];
        }
        if InTier(Weekly, b) {
          weekly := weekly + [b];
        }
      }
      assert backups[..|backups|] == backups;
    }

    // Four independent tiers mark one set of kept paths.
    static method MarkNewest(backups: seq<File>, c: Config) returns (kept: set<string>)
      requires OfTier(backups, Daily) == backups
      ensures kept == AllMarks(backups, c)
    {
      var yearly, monthly, weekly := SplitTiers(backups);
      var normalized := c.Normalize();
      kept := KeepNewest(yearly, normalized.keepYearly, {});
      kept := KeepNewest(monthly, normalized.keepMonthly, kept);
      kept := KeepNewest(weekly, normalized.keepWeekly, kept);
      kept := KeepNewest(backups, normalized.maxBackups, kept);
    }

    method MarkKept(backups: seq<File>, c: Config) returns (kept: set<string>)
      requires Valid() && IsListing(backups, Fulls(files))
      ensures forall f | f in backups :: f.name in kept <==> f in Kept(Fulls(files), c, RankIn(backups))
      ensures forall i | 0 <= i < |backups| ::
                backups[i].Full? && (backups[i].name in kept <==> IsToBeKept(backups, i, c))
    {
      EveryFullIsDaily(backups, Fulls(files));
      kept := MarkNewest(backups, c);
      forall f | f in backups
        ensures f.name in kept <==> f in Kept(Fulls(files), c, RankIn(backups))
      {
        TiersCoverKept(backups, files, c, f);
      }
      forall i | 0 <= i < |backups|
        ensures backups[i].Full? && (backups[i].name in kept <==> IsToBeKept(backups, i, c))
      {
        assert backups[i] in backups;
        KeptIff(backups, Fulls(files), c, i);
      }
    }

    method Remove(f: File, removable: string -> bool) returns (ok: bool)
      requires Valid() && f in files
      modifies this
      ensures Valid() && ok == removable(f.name)
      ensures files == if ok then old(files) - {f} else old(files)
    {
      ok := removable(f.name);
      if ok {
        files := files - {f};
      }
    }

    // Deletes the unmarked backups, oldest first, until one cannot be removed.
    method PruneUnmarked(backups: seq<File>, kept: set<string>, removable: string -> bool)
      returns (ok: bool, deleted: seq<string>, remaining: seq<File>, ghost done: nat)
      requires Valid() && InTimeOrder(backups) && NoRepeats(backups) && Elements(backups) <= files
      modifies this
      ensures Valid() && done <= |backups| && (ok ==> done == |backups|)
      ensures files == old(files) - Elements(Chosen(backups[..done], kept, false))
      ensures deleted == Names(Chosen(backups[..done], kept, false)) && remaining == Chosen(backups[..done], kept, true)
      ensures !ok ==> done < |backups| && backups[done].name !in kept && !removable(backups[done].name)
    {
      ok, deleted, remaining, done := true, [], [], 0;
      assert Elements(Chosen(backups[..0], kept, false)) == {};
      for i := 0 to |backups|
        invariant done == i && Valid() && files == old(files) - Elements(Chosen(backups[..i], kept, false))
        invariant deleted == Names(Chosen(backups[..i], kept, false)) && remaining == Chosen(backups[..i], kept, true)
      {
        var b := backups[i];
        ChosenNext(backups, i, kept);
        if b.name in kept {
          remaining := remaining + [b];
        } else {
          var removed := Remove(b, removable);
          if !removed {
            ok := false;
            return;
          }
          deleted := deleted + [b.name];
        }
        done := i + 1;
      }
    }

    static method SumSizes(list: seq<File>) returns (total: nat)
      ensures total == Total(list)
    {
      total := 0;
      for i := 0 to |list|
        invariant total + Total(list[i..]) == Total(list)
      {
        assert list[i..][1..] == list[i + 1..];
        total := total + list[i].size;
      }
    }

    // While the total exceeds a positive cap, the oldest remaining file goes.
    method ApplyCap(remaining: seq<File>, cap: nat, removable: string -> bool)
      returns (ok: bool, deleted: seq<string>, ghost cut: nat)
      requires Valid() && NoRepeats(remaining) && Elements(remaining) <= files
      modifies this
      ensures Valid() && cut <= |remaining| && files == old(files) - Elements(remaining[..cut])
      ensures deleted == Names(remaining[..cut])
      ensures ok ==> IsCut(remaining, cap, cut)
      ensures !ok ==> cut < |remaining| && Total(remaining[cut..]) > cap > 0 && !removable(remaining[cut].name)
    {
      ok, deleted, cut := true, [], 0;
      assert remaining[..0] == [] && Elements([]) == {};
      if cap == 0 {
        return;
      }
      var total := SumSizes(remaining);
      assert remaining[0..] == remaining;
      var i := 0;
      while i < |remaining| && total > cap
        invariant cut == i <= |remaining|
        invariant total == Total(remaining[i..])
        invariant i > 0 ==> Total(remaining[i - 1..]) > cap
        invariant Valid() && files == old(files) - Elements(remaining[..i])
        invariant deleted == Names(remaining[..i])
      {
        OneMoreElement(remaining, i);
        var removed := Remove(remaining[i], removable);
        if !removed {
          return false, deleted, cut;
        }
        assert remaining[i..][1..] == remaining[i + 1..];
        total := total - remaining[i].size;
        deleted := deleted + [remaining[i].name];
        i, cut := i + 1, cut + 1;
      }
    }

    // The tier pass: list, mark, prune.
    method PruneTiers(c: Config, removable: string -> bool)
      returns (ok: bool, deleted: seq<string>, remaining: seq<File>, ghost listed: seq<File>, ghost pruned: seq<File>)
      requires Valid()
      modifies this
      ensures Valid() && IsListing(listed, Fulls(old(files))) && AreFull(listed)
      ensures ok ==> pruned == Doomed(listed, c, |listed|)
      ensures !ok ==> StopsPruning(listed, c, pruned, removable)
      ensures NoRepeats(pruned) && Elements(pruned) <= Fulls(old(files))
      ensures deleted == Names(pruned) && files == old(files) - Elements(pruned)
      ensures ok ==> IsListing(pruned, Fulls(old(files)) - Kept(Fulls(old(files)), c, RankIn(listed)))
      ensures ok ==> Elements(remaining) == Kept(Fulls(old(files)), c, RankIn(listed))
    {
      var backups := ListRetained();
      listed := backups;
      var kept := MarkKept(backups, c);
      ghost var done;
      ok, deleted, remaining, done := PruneUnmarked(backups, kept, removable);
      pruned := Chosen(backups[..done], kept, false);
      ChosenAre(backups[..done], kept, false);
      assert forall f | f in pruned :: f in Elements(backups);
      assert forall i | 0 <= i < |backups| :: backups[i] in backups;
      ChosenAreDoomed(backups, kept, c, done);
      if ok {
        assert backups[..done] == backups;
        ChosenIsSweep(old(files), backups, kept, c);
      }
    }

    /**
      One sweep. A file that cannot be removed stops it; the returned names are always exactly the removed files,
      each once.
     */
    method ApplyRetention(c: Config, cap: nat, removable: string -> bool)
      returns (ok: bool, deleted: seq<string>, ghost w: Sweep)
      requires Valid()
      modifies this
      ensures Valid() && IsRun(old(files), c, cap, removable, ok, deleted, w)
      ensures files == set f | f in old(files) && f.name !in deleted
      ensures ok ==> files == Survivors(old(files), w)
      ensures ok ==> forall f :: f in files <==> (f in old(files) && f.Foreign?) || f in w.remaining[w.cut..]
      ensures (forall f | f in old(files) :: removable(f.name)) ==> ok
    {
      var remaining, capDeleted;
      ghost var listed, pruned, cut;
      ok, deleted, remaining, listed, pruned := PruneTiers(c, removable);
      w := Sweep(listed, pruned, [], 0);
      if !ok {
        StoppedRun(old(files), c, cap, removable, w);
        return;
      }
      var incrementals := ListIncrementals();
      assert Incrementals(files) == Incrementals(old(files));
      var all := SortByTime((set f | f in remaining) + (set f | f in incrementals));
      assert Elements(all) == Elements(remaining) + Elements(incrementals);
      ok, capDeleted, cut := ApplyCap(all, cap, removable);
      deleted := deleted + capDeleted;
      w := Sweep(listed, pruned, all, cut);
      CappedRun(old(files), c, cap, removable, ok, w);
    }
  }

  // What a sweep has done by the time it ends: which backups it pruned, oldest first, then which files the cap took;
  // and if it failed, at which file.
  ghost predicate IsRun(
    files: set<File>, c: Config, cap: nat, removable: string -> bool, ok: bool, deleted: seq<string>, w: Sweep)
  {
    && AreFull(w.listed) && IsInDateOrder(w.listed) && (forall f :: f in w.listed <==> f in files && f.Full?)
    && w.cut <= |w.remaining| && deleted == Names(w.pruned) + Names(w.remaining[..w.cut]) && NoRepeats(deleted)
    && if ok then
         w.pruned == Doomed(w.listed, c, |w.listed|) && IsSweep(files, c, cap, w) && IsSweptAs(files, c, cap, w)
       else if w.remaining == [] then
         StopsPruning(w.listed, c, w.pruned, removable)
       else
         && w.pruned == Doomed(w.listed, c, |w.listed|) && w.cut < |w.remaining|
         && Total(w.remaining[w.cut..]) > cap > 0 && !removable(w.remaining[w.cut].name)
  }

  lemma StoppedRun(files: set<File>, c: Config, cap: nat, removable: string -> bool, w: Sweep)
    requires NamesIdentify(files) && IsListing(w.listed, Fulls(files)) && AreFull(w.listed)
    requires NoRepeats(w.pruned) && Elements(w.pruned) <= Fulls(files) && w.remaining == [] && w.cut == 0
    requires StopsPruning(w.listed, c, w.pruned, removable)
    ensures IsRun(files, c, cap, removable, false, Names(w.pruned), w)
    ensures files - Elements(w.pruned) == set f | f in files && f.name !in Names(w.pruned)
    ensures exists f | f in files :: !removable(f.name)
  {
    GoneByName(files, w.pruned);
    TimeOrderIsDateOrder(w.listed);
    assert forall f :: f in w.listed <==> f in Elements(w.listed);
    assert Names(w.remaining[..0]) == [] && Names(w.pruned) + [] == Names(w.pruned);
  }

  lemma CappedRun(files: set<File>, c: Config, cap: nat, removable: string -> bool, ok: bool, w: Sweep)
    requires NamesIdentify(files) && IsListing(w.listed, Fulls(files)) && AreFull(w.listed)
    requires IsListing(w.pruned, Fulls(files) - Kept(Fulls(files), c, RankIn(w.listed)))
    requires IsListing(w.remaining, Kept(Fulls(files), c, RankIn(w.listed)) + Incrementals(files))
    requires w.pruned == Doomed(w.listed, c, |w.listed|) && w.cut <= |w.remaining|
    requires ok ==> IsCut(w.remaining, cap, w.cut)
    requires !ok ==> w.cut < |w.remaining| && Total(w.remaining[w.cut..]) > cap > 0 &&
                     !removable(w.remaining[w.cut].name)
    ensures var deleted := Names(w.pruned) + Names(w.remaining[..w.cut]);
            && IsRun(files, c, cap, removable, ok, deleted, w)
            && Survivors(files, w) == set f | f in files && f.name !in deleted
    ensures ok ==> forall f :: f in Survivors(files, w) <==> (f in files && f.Foreign?) || f in w.remaining[w.cut..]
    ensures !ok ==> exists f | f in files :: !removable(f.name)
  {
    SweepByName(files, c, w);
    TimeOrderIsDateOrder(w.listed);
    assert forall f :: f in w.listed <==> f in Elements(w.listed);
    if ok {
      SweepIs(files, c, cap, w);
      LeftBehind(files, c, cap, w);
    } else {
      assert w.remaining[w.cut] in Elements(w.remaining);
    }
  }

  ghost predicate AreFull(list: seq<File>) {
    forall f | f in list :: f.Full?
  }

  // The tier pass has deleted the first of what it had to, and the next one cannot be removed.
  ghost predicate StopsPruning(listed: seq<File>, c: Config, pruned: seq<File>, removable: string -> bool)
    requires AreFull(listed)
  {
    exists d | 0 <= d < |listed| ::
      && pruned == Doomed(listed, c, d)
      && listed[d] in listed && !IsToBeKept(listed, d, c) && !removable(listed[d].name)
  }

  lemma LeftBehind(files: set<File>, c: Config, cap: nat, w: Sweep)
    requires IsSweep(files, c, cap, w)
    ensures forall f :: f in Survivors(files, w) <==> (f in files && f.Foreign?) || f in w.remaining[w.cut..]
  {
    SweepIs(files, c, cap, w);
    forall f
      ensures f in Survivors(files, w) <==> (f in files && f.Foreign?) || f in w.remaining[w.cut..]
    {
      InOneHalf(w.remaining, w.cut, f);
      assert f in Elements(w.pruned) <==> f in w.pruned;
      assert f in Elements(w.remaining[..w.cut]) <==> f in w.remaining[..w.cut];
    }
  }

  lemma InOneHalf(list: seq<File>, cut: nat, f: File)
    requires NoRepeats(list) && cut <= |list|
    ensures f in list <==> f in list[..cut] || f in list[cut..]
    ensures !(f in list[..cut] && f in list[cut..])
  {
    InOnePart(list, cut, f);
    if f in list[..cut] {
      var i :| 0 <= i < cut && list[i] == f;
      assert forall j | cut <= j < |list| :: list[j] != f;
    }
  }

  lemma SweepByName(files: set<File>, c: Config, w: Sweep)
    requires NamesIdentify(files) && IsListing(w.listed, Fulls(files)) && w.cut <= |w.remaining|
    requires IsListing(w.pruned, Fulls(files) - Kept(Fulls(files), c, RankIn(w.listed)))
    requires IsListing(w.remaining, Kept(Fulls(files), c, RankIn(w.listed)) + Incrementals(files))
    ensures var deleted := Names(w.pruned) + Names(w.remaining[..w.cut]);
            NoRepeats(deleted) && Survivors(files, w) == set f | f in files && f.name !in deleted
  {
    SweepIsDisjoint(files, c, w);
    GoneTwice(w.pruned, w.remaining, w.cut);
    var gone := w.pruned + w.remaining[..w.cut];
    assert Elements(w.remaining[..w.cut]) <= Elements(w.remaining);
    GoneByName(files, gone);
    assert Names(gone) == Names(w.pruned) + Names(w.remaining[..w.cut]);
  }

  lemma NamesInTier(list: seq<File>, files: set<File>, c: Config, t: Tier, f: File)
    requires NamesIdentify(files) && IsListing(list, Fulls(files)) && f in list
    ensures f.name in Marks(list, c, t) <==> KeptBy(Fulls(files), c, RankIn(list), t, f)
  {
    NewestAreKept(list, Fulls(files), c, t, f);
    OfTierElements(list, t);
    forall g | g in Newest(OfTier(list, t), Limit(c, t)) && g.name == f.name
      ensures g == f
    {
      assert g in OfTier(list, t);
      assert g in Elements(list) && f in Elements(list);
    }
  }

  lemma MarksOfAnyTier(list: seq<File>, c: Config, name: string)
    ensures name in AllMarks(list, c) <==> exists t :: name in Marks(list, c, t)
  {
    if t :| name in Marks(list, c, t) {
      match t
      case Yearly =>
      case Monthly =>
      case Weekly =>
      case Daily =>
    }
  }

  lemma TiersCoverKept(list: seq<File>, files: set<File>, c: Config, f: File)
    requires NamesIdentify(files) && IsListing(list, Fulls(files)) && f in list
    ensures f in Kept(Fulls(files), c, RankIn(list)) <==>
            f.name in AllMarks(list, c)
  {
    assert f in Elements(list);
    forall t
      ensures f.name in Marks(list, c, t) <==> KeptBy(Fulls(files), c, RankIn(list), t, f)
    {
      NamesInTier(list, files, c, t, f);
    }
    assert f.name in AllMarks(list, c) <==> exists t :: f.name in Marks(list, c, t) by {
      MarksOfAnyTier(list, c, f.name);
    }
  }

  lemma GoneByName(files: set<File>, gone: seq<File>)
    requires NamesIdentify(files) && Elements(gone) <= files && NoRepeats(gone)
    ensures NoRepeats(Names(gone))
    ensures files - Elements(gone) == set f | f in files && f.name !in Names(gone)
  {
    forall f | f in files
      ensures f in gone <==> f.name in Names(gone)
    {
      if f in gone {
        var i :| 0 <= i < |gone| && gone[i] == f;
        assert Names(gone)[i] == f.name;
      }
      if f.name in Names(gone) {
        var i :| 0 <= i < |gone| && Names(gone)[i] == f.name;
        assert gone[i] in Elements(gone);
      }
    }
    assert forall i | 0 <= i < |gone| :: gone[i] in Elements(gone);
  }

  lemma GoneTwice(first: seq<File>, second: seq<File>, cut: nat)
    requires NoRepeats(first) && NoRepeats(second) && cut <= |second|
    requires forall f | f in first :: f !in second
    ensures NoRepeats(first + second[..cut])
    ensures Elements(first + second[..cut]) == Elements(first) + Elements(second[..cut])
  {
    var all := first + second[..cut];
    forall i, j | 0 <= i < j < |all|
      ensures all[i] != all[j]
    {
      if i < |first| <= j {
        assert all[i] in first && second[j - |first|] in second;
      }
    }
  }

  lemma EveryFullIsDaily(list: seq<File>, s: set<File>)
    requires IsListing(list, s) && forall f | f in s :: f.Full?
    ensures OfTier(list, Daily) == list
  {
    AllOfTier(list, Daily);
  }

  lemma {:induction false} AllOfTier(list: seq<File>, t: Tier)
    requires forall f | f in list :: InTier(t, f)
    ensures OfTier(list, t) == list
  {
    if list != [] {
      var front, last := list[..|list| - 1], list[|list| - 1];
      assert list == front + [last];
      assert last in list && forall f | f in front :: f in list;
      AllOfTier(front, t);
    }
  }
}
