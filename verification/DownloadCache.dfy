/** The download cache: directories on disk and a list of their names, most recently touched first,
    kept in memory and in a file. Calls run one after another. */
module DownloadCaches {
  import opened Common

  const KEEP_LRU: nat := 5
  const STAGING_SUFFIX: string := ".staging"
  const RENAME_ATTEMPTS: nat := 20

  predicate IsStaging(name: string) {
    |name| >= |STAGING_SUFFIX| && name[|name| - |STAGING_SUFFIX|..] == STAGING_SUFFIX
  }

  predicate Distinct(l: seq<string>) {
    forall i, j :: 0 <= i < j < |l| ==> l[i] != l[j]
  }

  /** `retain`, and on a list without duplicates, `remove` at the position found. */
  function Without(l: seq<string>, name: string): (r: seq<string>)
    ensures forall x :: x in r <==> x in l && x != name
    ensures |r| <= |l| && (name !in l ==> r == l)
  {
    if l == [] then []
    else Without(l[..|l| - 1], name) + (if l[|l| - 1] == name then [] else [l[|l| - 1]])
  }

  /** The time of the latest touch strictly falls along the list. */
  ghost predicate Recent(l: seq<string>, touched: map<string, int>) {
    && (forall x :: x in l ==> x in touched)
    && forall i, j :: 0 <= i < j < |l| ==> touched[l[i]] > touched[l[j]]
  }

  /** Every directory that is not a staging directory is listed. */
  ghost predicate Covers(l: seq<string>, disk: set<string>) {
    forall d :: d in disk && !IsStaging(d) ==> d in l
  }

  lemma {:induction false} WithoutKeepsOrder(l: seq<string>, name: string, touched: map<string, int>)
    requires Recent(l, touched)
    ensures Recent(Without(l, name), touched)
  {
    if l != [] {
      var init, last := l[..|l| - 1], l[|l| - 1];
      WithoutKeepsOrder(init, name, touched);
      RecentSnoc(Without(init, name), last, touched);
    }
  }

  lemma RecentSnoc(r: seq<string>, x: string, touched: map<string, int>)
    requires Recent(r, touched) && x in touched && forall y :: y in r ==> touched[y] > touched[x]
    ensures Recent(r + [x], touched)
  {
  }

  lemma {:induction false} WithoutShorter(l: seq<string>, name: string)
    requires name in l
    ensures |Without(l, name)| < |l|
  {
    if l[|l| - 1] != name { WithoutShorter(l[..|l| - 1], name); }
  }

  lemma {:induction false} WithoutDistinct(l: seq<string>, name: string, i: nat)
    requires Distinct(l) && i < |l| && l[i] == name
    ensures Without(l, name) == l[..i] + l[i + 1..]
  {
    if i == |l| - 1 {
      assert name !in l[..i];
    } else {
      WithoutDistinct(l[..|l| - 1], name, i);
      assert l[..|l| - 1][i + 1..] + [l[|l| - 1]] == l[i + 1..];
      assert l[..|l| - 1][..i] == l[..i];
    }
  }

  /** The list with a name moved, or added, to the front. */
  function Fronted(l: seq<string>, name: string): seq<string> {
    [name] + Without(l, name)
  }

  /** A touch: over the limit, the last entry goes if its directory is gone or can be removed. */
  function Touched(l: seq<string>, name: string, disk: set<string>, removable: bool): seq<string> {
    var f := Fronted(l, name);
    if |f| > KEEP_LRU && (f[|f| - 1] !in disk || removable) then f[..|f| - 1] else f
  }

  function DiskAfterTouch(l: seq<string>, name: string, disk: set<string>, removable: bool): set<string> {
    var f := Fronted(l, name);
    if |f| > KEEP_LRU && removable then disk - {f[|f| - 1]} else disk
  }

  function Position(l: seq<string>, x: string): (i: nat)
    ensures x in l ==> i < |l| && l[i] == x
  {
    if l == [] then 0 else if l[0] == x then 0 else 1 + Position(l[1..], x)
  }

  /** Times that fall along the list. */
  ghost function Times(l: seq<string>): map<string, int> {
    map x: string | x in l :: 0 - (Position(l, x) as int)
  }

  lemma TimesFall(l: seq<string>)
    requires Distinct(l)
    ensures Recent(l, Times(l))
  {
    forall i | 0 <= i < |l| ensures Position(l, l[i]) == i {
      assert l[Position(l, l[i])] == l[i];
    }
  }

  lemma RecentIsDistinct(l: seq<string>, touched: map<string, int>)
    requires Recent(l, touched)
    ensures Distinct(l)
  {
  }

  lemma FrontedIsRecent(l: seq<string>, name: string, touched: map<string, int>, now: int)
    requires Recent(l, touched) && forall x :: x in touched ==> touched[x] < now
    ensures var f := Fronted(l, name);
      && Recent(f, touched[name := now]) && Distinct(f)
      && f[0] == name && (forall x :: x in l ==> x in f)
  {
    var f, r := Fronted(l, name), Without(l, name);
    WithoutKeepsOrder(l, name, touched);
    forall i, j | 0 <= i < j < |f| ensures touched[name := now][f[i]] > touched[name := now][f[j]] {
      assert f[j] == r[j - 1] && r[j - 1] in r;
      if i > 0 { assert f[i] == r[i - 1] && r[i - 1] in r; }
    }
    RecentIsDistinct(f, touched[name := now]);
  }

  /** What every call keeps; `bound` is the length at the start, `failures` the removals that have failed. */
  ghost predicate Consistent(l: seq<string>, disk: set<string>, touched: map<string, int>, clock: int, bound: nat,
                             failures: nat) {
    && Distinct(l) && Covers(l, disk) && Recent(l, touched)
    && (forall x :: x in touched ==> touched[x] < clock)
    && |l| <= Max(KEEP_LRU, bound) + failures
  }

  /** A removal that fails while the list is over its limit. */
  function FailedRemoval(l: seq<string>, name: string, disk: set<string>, removable: bool): nat {
    var f := Fronted(l, name);
    if |f| > KEEP_LRU && f[|f| - 1] in disk && !removable then 1 else 0
  }

  /** The fronted list before anything is evicted; it may be one too long. */
  lemma FrontedIsConsistent(l: seq<string>, name: string, disk: set<string>, touched: map<string, int>, clock: int,
                            bound: nat, failures: nat)
    requires Consistent(l, disk, touched, clock, bound, failures)
    ensures var f := Fronted(l, name);
      && |f| > 0 && f[0] == name
      && Distinct(f) && Covers(f, disk) && Recent(f, touched[name := clock])
      && |f| <= |l| + 1
  {
    hide Recent, Without;
    FrontedIsRecent(l, name, touched, clock);
  }

  lemma TouchIsConsistent(l: seq<string>, name: string, disk: set<string>, removable: bool,
                          touched: map<string, int>, clock: int, bound: nat, failures: nat)
    requires Consistent(l, disk, touched, clock, bound, failures)
    ensures Consistent(Touched(l, name, disk, removable), DiskAfterTouch(l, name, disk, removable),
              touched[name := clock], clock + 1, bound, failures + FailedRemoval(l, name, disk, removable))
    ensures Touched(l, name, disk, removable) != [] && Touched(l, name, disk, removable)[0] == name
    ensures name in disk ==> name in DiskAfterTouch(l, name, disk, removable)
  {
    hide Recent, Fronted;
    var f := Fronted(l, name);
    FrontedIsConsistent(l, name, disk, touched, clock, bound, failures);
    PrefixIsRecent(f, touched[name := clock]);
    assert |f| > KEEP_LRU ==> f[0] != f[|f| - 1];
  }

  /** The entry touched longest ago, the one being touched aside. */
  ghost predicate LeastRecent(l: seq<string>, name: string, touched: map<string, int>, x: string) {
    && x in l && x != name && x in touched
    && forall y :: y in l && y != name ==> y in touched && touched[x] <= touched[y]
  }

  /** What a touch does to list and disk, exactly: over the limit of 5 the entry touched longest ago goes, its
      directory with it, if that is gone already or can be removed; nothing else goes, from either. */
  lemma TouchEvictsLeastRecent(l: seq<string>, name: string, disk: set<string>, removable: bool,
                               touched: map<string, int>)
    requires Recent(l, touched)
    ensures var l', disk' := Touched(l, name, disk, removable), DiskAfterTouch(l, name, disk, removable);
      var n := |l| + if name in l then 0 else 1;
      var failed := FailedRemoval(l, name, disk, removable);
      && |l'| > 0 && l'[0] == name
      && (n <= 5 ==> (forall y :: y in l' <==> y == name || y in l) && disk' == disk && failed == 0)
      && (n > 5 ==> exists x :: LeastRecent(l, name, touched, x))
      && forall x :: n > 5 && LeastRecent(l, name, touched, x) ==>
           var goes := removable || x !in disk;
           && (forall y :: y in l' <==> (y == name || y in l) && !(goes && y == x))
           && disk' == (if goes then disk - {x} else disk)
           && failed == (if goes then 0 else 1)
  {
    hide Recent, Without, LeastRecent;
    var f := Fronted(l, name);
    FrontedLength(l, name, touched);
    assert forall y :: y in f <==> y == name || y in l;
    if |f| > KEEP_LRU {
      var last := f[|f| - 1];
      LastIsLeastRecent(l, name, touched);
      assert LeastRecent(l, name, touched, last);
      assert forall y :: y in f[..|f| - 1] <==> y in f && y != last;
    }
  }

  /** In particular: at most one name leaves, it was touched before every one that stays, and only its
      directory leaves the disk. */
  lemma TouchLosesOne(l: seq<string>, name: string, disk: set<string>, removable: bool, touched: map<string, int>)
    requires Recent(l, touched)
    ensures var l', disk' := Touched(l, name, disk, removable), DiskAfterTouch(l, name, disk, removable);
      && (forall x :: x in l' ==> x == name || x in l)
      && (forall x, y :: x in l && x !in l' && y in l && y !in l' ==> x == y)
      && (forall x, y :: x in l && x !in l' && y in l' && y != name ==>
            x in touched && y in touched && touched[x] < touched[y])
      && disk' == (set d | d in disk && (d !in l || d in l'))
      && ((exists x :: x in l && x !in l') ==> |l| + (if name in l then 0 else 1) > 5)
  {
    TouchEvictsLeastRecent(l, name, disk, removable, touched);
    var l', disk' := Touched(l, name, disk, removable), DiskAfterTouch(l, name, disk, removable);
    hide Recent, Touched, DiskAfterTouch, FailedRemoval, LeastRecent;
    if |l| + (if name in l then 0 else 1) > 5 {
      var x :| LeastRecent(l, name, touched, x);
      LeastRecentIsFirst(l, name, touched, x);
      LosesOne(l, l', name, x, removable || x !in disk, disk, disk');
    } else {
      assert disk' == set d | d in disk && (d !in l || d in l');
    }
  }

  lemma LosesOne(l: seq<string>, l': seq<string>, name: string, x: string, goes: bool, disk: set<string>,
                 disk': set<string>)
    requires forall y :: y in l' <==> (y == name || y in l) && !(goes && y == x)
    requires disk' == if goes then disk - {x} else disk
    requires x in l && x != name
    ensures forall y :: y in l && y !in l' <==> goes && y == x
    ensures disk' == set d | d in disk && (d !in l || d in l')
  {
  }

  lemma LeastRecentIsFirst(l: seq<string>, name: string, touched: map<string, int>, x: string)
    requires Recent(l, touched) && LeastRecent(l, name, touched, x)
    ensures x in l && x != name && x in touched
    ensures forall y :: y in l && y != name && y != x ==> y in touched && touched[x] < touched[y]
  {
    var i :| 0 <= i < |l| && l[i] == x;
    forall y | y in l && y != name && y != x ensures y in touched && touched[x] < touched[y] {
      var j :| 0 <= j < |l| && l[j] == y;
    }
  }

  lemma FrontedLength(l: seq<string>, name: string, touched: map<string, int>)
    requires Recent(l, touched)
    ensures |Fronted(l, name)| == |l| + if name in l then 0 else 1
  {
    RecentIsDistinct(l, touched);
    hide Recent, Without;
    if name in l {
      var i :| 0 <= i < |l| && l[i] == name;
      WithoutDistinct(l, name, i);
    }
  }

  lemma LastIsLeastRecent(l: seq<string>, name: string, touched: map<string, int>)
    requires Recent(l, touched) && |Fronted(l, name)| > 1
    ensures var f := Fronted(l, name);
      && Distinct(f)
      && forall x :: LeastRecent(l, name, touched, x) <==> x == f[|f| - 1]
  {
    var f, r := Fronted(l, name), Without(l, name);
    var last := r[|r| - 1];
    WithoutKeepsOrder(l, name, touched);
    RecentIsDistinct(r, touched);
    FrontIsDistinct(r, name);
    LastIsBehind(r, touched);
    hide Recent, Without, Distinct;
    assert f[|f| - 1] == last && last in r;
  }

  lemma FrontIsDistinct(r: seq<string>, name: string)
    requires Distinct(r) && name !in r
    ensures Distinct([name] + r)
  {
    var f := [name] + r;
    forall i, j | 0 <= i < j < |f| ensures f[i] != f[j] {
      assert f[j] == r[j - 1] && r[j - 1] in r;
      assert i > 0 ==> f[i] == r[i - 1];
    }
  }

  lemma LastIsBehind(r: seq<string>, touched: map<string, int>)
    requires Recent(r, touched) && r != []
    ensures var last := r[|r| - 1];
      last in touched && forall y :: y in r ==> y in touched && (y != last ==> touched[last] < touched[y])
  {
    forall y | y in r ensures y in touched && (y != r[|r| - 1] ==> touched[r[|r| - 1]] < touched[y]) {
      var i :| 0 <= i < |r| && r[i] == y;
    }
  }

  lemma PrefixIsRecent(l: seq<string>, touched: map<string, int>)
    requires Recent(l, touched) && |l| > 0
    ensures Recent(l[..|l| - 1], touched) && Distinct(l[..|l| - 1])
  {
    assert forall x :: x in l[..|l| - 1] ==> x in l;
  }

  lemma DeleteIsConsistent(l: seq<string>, name: string, disk: set<string>, touched: map<string, int>, clock: int,
                           bound: nat, failures: nat)
    requires Consistent(l, disk, touched, clock, bound, failures)
    ensures Consistent(Without(l, name), disk - {name}, touched, clock, bound, failures)
  {
    hide Recent;
    WithoutKeepsOrder(l, name, touched);
    RecentIsDistinct(Without(l, name), touched);
  }

  function Temp(name: string): string {
    name + STAGING_SUFFIX
  }

  lemma StagingIsNotCovered(name: string)
    ensures IsStaging(Temp(name)) && Temp(name) == name + ".staging"
  {
  }

  /** What a new process needs to find: a list without duplicates that covers the disk. */
  ghost predicate Startable(file: Option<seq<string>>, disk: set<string>) {
    var l := if file.Some? then file.value else [];
    Distinct(l) && Covers(l, disk)
  }

  lemma CoveringIsStartable(l: seq<string>, file: Option<seq<string>>, disk: set<string>,
                            touched: map<string, int>, clock: int, bound: nat, failures: nat)
    requires Consistent(l, disk, touched, clock, bound, failures)
    ensures l == (if file.Some? then file.value else []) ==> forall disk' :: disk' <= disk ==> Startable(file, disk')
  {
  }

  lemma StartableFrom(l: seq<string>, disk: set<string>, touched: map<string, int>, clock: int, bound: nat,
                      failures: nat)
    requires Consistent(l, disk, touched, clock, bound, failures)
    ensures Startable(Some(l), disk)
  {
  }

  /** The disk may gain staging directories and listed ones, and lose any. */
  lemma DiskMayChange(l: seq<string>, disk: set<string>, disk': set<string>, touched: map<string, int>, clock: int,
                      bound: nat, failures: nat)
    requires Consistent(l, disk, touched, clock, bound, failures)
    requires forall d :: d in disk' && d !in disk ==> IsStaging(d) || d in l
    ensures Consistent(l, disk', touched, clock, bound, failures)
  {
    hide Recent, Distinct, IsStaging;
  }

  /** The position of the name is looked for; it goes from there, if anywhere, to the front. */
  method MoveToFront(l: seq<string>, name: string) returns (r: seq<string>)
    requires Distinct(l)
    ensures r == Fronted(l, name)
  {
    hide Without;
    var index := 0;
    while index < |l| && l[index] != name
      invariant 0 <= index <= |l| && name !in l[..index]
    {
      index := index + 1;
    }
    r := l;
    if index < |l| {
      WithoutDistinct(l, name, index);
      r := l[..index] + l[index + 1..];
    } else {
      assert l[..index] == l;
    }
    r := [name] + r;
  }

  class DownloadCache {
    /** `PersistedStateContainer`: the state once it has been loaded, and the file. */
    var state: Option<seq<string>>
    var file: Option<seq<string>>
    /** The directories under the cache path. */
    var disk: set<string>

    /** When each name was last touched, removals that have failed, and the length at the start. */
    ghost var clock: int
    ghost var touched: map<string, int>
    ghost var failures: nat
    ghost var initialLength: nat
    /** Saves that have failed, and whether at every moment so far, the moments between two steps of one
        call included, a new process could have started from the file and the disk. */
    ghost var lostSaves: nat
    ghost var recoverable: bool

    /** What the next caller will see as the list. */
    function List(): seq<string>
      reads this
    {
      if state.Some? then state.value else if file.Some? then file.value else []
    }

    function FileList(): seq<string>
      reads this
    {
      if file.Some? then file.value else []
    }

    /** While no save has failed, the file's list is the list in memory. */
    ghost predicate Durable()
      reads this
    {
      lostSaves == 0 ==> FileList() == List() && recoverable
    }

    ghost predicate Valid()
      reads this
    {
      Consistent(List(), disk, touched, clock, initialLength, failures) && Durable()
    }

    /** One more moment at which the process might have stopped. */
    ghost method Moment()
      modifies this`recoverable
      ensures recoverable == (old(recoverable) && Startable(file, disk))
    {
      recoverable := recoverable && Startable(file, disk);
    }

    /** Starts from whatever file there is; its entries count as touched in their order. */
    constructor (initial: Option<seq<string>>, directories: set<string>)
      requires Startable(initial, directories)
      ensures Valid() && state == None && file == initial && disk == directories
      ensures failures == 0 && lostSaves == 0 && initialLength == |List()|
    {
      state, file, disk := None, initial, directories;
      var l := if initial.Some? then initial.value else [];
      clock, failures, initialLength, lostSaves, recoverable := 1, 0, |l|, 0, true;
      touched := Times(l);
      new;
      TimesFall(l);
    }

    /** The process ends and another one starts: what was in memory is gone. */
    method Restart()
      requires Valid() && lostSaves == 0
      modifies this`state
      ensures Valid() && state == None && List() == old(List())
    {
      state := None;
    }

    /** `load_or_get`: the file is read once. */
    method LoadOrGet() returns (l: seq<string>)
      modifies this`state
      ensures l == List() == old(List()) && state == Some(l)
    {
      if state.Some? { return state.value; }
      l := if file.Some? then file.value else [];
      state := Some(l);
    }

    /** `save`: the cached state changes even when the file cannot be written. */
    method Save(l: seq<string>, writable: bool) returns (ok: bool)
      modifies this`state, this`file, this`lostSaves, this`recoverable
      ensures state == Some(l) && ok == writable && file == if writable then Some(l) else old(file)
      ensures lostSaves == old(lostSaves) + if writable then 0 else 1
      ensures recoverable == (old(recoverable) && Startable(file, disk))
    {
      state := Some(l);
      if writable { file := Some(l); } else { lostSaves := lostSaves + 1; }
      Moment();
      ok := writable;
    }

    method Touch(name: string, removable: bool, writable: bool) returns (ok: bool)
      requires Valid()
      modifies this
      ensures Valid() && ok == writable && initialLength == old(initialLength)
      ensures forall x :: x in List() ==> x == name || x in old(List())
      ensures forall x, y :: x in old(List()) && x !in List() && y in old(List()) && y !in List() ==> x == y
      ensures forall x, y :: x in old(List()) && x !in List() && y in List() && y != name ==>
        x in old(touched) && y in old(touched) && old(touched)[x] < old(touched)[y]
      ensures disk == set d | d in old(disk) && (d !in old(List()) || d in List())
      ensures (exists x :: x in old(List()) && x !in List()) ==>
        |old(List())| + (if name in old(List()) then 0 else 1) > 5
      ensures List() == Touched(old(List()), name, old(disk), removable)
      ensures disk == DiskAfterTouch(old(List()), name, old(disk), removable)
      ensures |List()| <= Max(5, initialLength) + failures
      ensures |List()| > 0 && List()[0] == name && (name in old(disk) ==> name in disk)
      ensures touched == old(touched)[name := old(clock)] && clock == old(clock) + 1
      ensures failures == old(failures) + FailedRemoval(old(List()), name, old(disk), removable)
      ensures file == (if writable then Some(List()) else old(file))
      ensures lostSaves == old(lostSaves) + if writable then 0 else 1
    {
      hide Consistent, Without, Startable, Touched, DiskAfterTouch, FailedRemoval, Recent;
      DistinctList();
      TouchLosesOne(List(), name, disk, removable, touched);
      TouchIsConsistent(List(), name, disk, removable, touched, clock, initialLength, failures);
      var l := LoadOrGet();
      l := MoveToFront(l, name);
      l := Evict(l, name, removable);
      touched := touched[name := clock];
      clock := clock + 1;
      StartableFrom(l, disk, touched, clock, initialLength, failures);
      ok := Save(l, writable);
      BoundedList();
    }

    lemma BoundedList()
      requires Valid()
      ensures |List()| <= Max(5, initialLength) + failures
    {
    }

    lemma DistinctList()
      requires Valid()
      ensures Distinct(List()) && Recent(List(), touched)
    {
    }

    /** Over the limit, the last directory goes if it can be removed, and the last entry with it. */
    method Evict(l: seq<string>, name: string, removable: bool) returns (r: seq<string>)
      requires Valid() && l == Fronted(List(), name)
      modifies this`disk, this`failures, this`recoverable
      ensures r == Touched(List(), name, old(disk), removable)
      ensures disk == DiskAfterTouch(List(), name, old(disk), removable)
      ensures failures == old(failures) + FailedRemoval(List(), name, old(disk), removable)
      ensures Durable()
    {
      hide Consistent, Without, Startable, Fronted;
      CoveringIsStartable(List(), file, disk, touched, clock, initialLength, failures);
      r := l;
      if |l| > KEEP_LRU {
        var last := l[|l| - 1];
        if last !in disk || removable {
          assert last !in disk ==> disk - {last} == disk;
          disk := disk - {last};
          Moment();
          r := l[..|l| - 1];
        } else {
          failures := failures + 1;
        }
      }
    }

    /** Whether a cache entry exists; it is marked as recently used if it does. */
    method Exists(name: string, removable: bool, writable: bool) returns (found: bool)
      requires Valid()
      modifies this
      ensures Valid() && found == (name in old(disk)) && initialLength == old(initialLength)
      ensures found ==> name in disk && List() == Touched(old(List()), name, old(disk), removable)
      ensures found ==> disk == DiskAfterTouch(old(List()), name, old(disk), removable)
      ensures !found ==> List() == old(List()) && disk == old(disk)
      ensures removable ==> failures == old(failures)
      ensures writable ==> lostSaves == old(lostSaves)
      ensures file == (if found && writable then Some(List()) else old(file))
      ensures old(Startable(file, disk)) ==> Startable(file, disk)
    {
      hide Consistent, Touched, DiskAfterTouch, Startable;
      if name !in disk { return false; }
      TouchShrinksDisk(List(), name, disk, removable);
      LessToCover(file, disk);
      var _ := Touch(name, removable, writable);
      StartableFrom(List(), disk, touched, clock, initialLength, failures);
      return true;
    }

    /** The list is left alone when the directory cannot be removed. */
    method Delete(name: string, removable: bool, writable: bool) returns (ok: bool)
      requires Valid()
      modifies this
      ensures Valid() && initialLength == old(initialLength) && failures == old(failures)
      ensures name in old(disk) && !removable ==> !ok && List() == old(List()) && disk == old(disk)
      ensures name !in old(disk) || removable ==>
        ok == writable && List() == Without(old(List()), name) && disk == old(disk) - {name}
      ensures writable ==> lostSaves == old(lostSaves)
      ensures file == (if (name !in old(disk) || removable) && writable then Some(List()) else old(file))
      ensures old(Startable(file, disk)) ==> Startable(file, disk)
    {
      hide Consistent, Without, Startable;
      CoveringIsStartable(List(), file, disk, touched, clock, initialLength, failures);
      LessToCover(file, disk);
      DeleteIsConsistent(List(), name, disk, touched, clock, initialLength, failures);
      if name in disk {
        if !removable { return false; }
        disk := disk - {name};
        Moment();
      }
      assert disk == old(disk) - {name};
      StartableFrom(Without(List(), name), disk, touched, clock, initialLength, failures);
      var l := LoadOrGet();
      ok := Save(Without(l, name), writable);
    }

    /** Fills a staging directory, touches the name, and renames, trying several times. */
    method Create(name: string, cleaned: bool, created: bool, filled: bool, removable: bool, writable: bool,
                  renames: seq<bool>)
        returns (ok: bool)
      requires Valid() && |renames| == 21
      modifies this
      ensures Valid() && initialLength == old(initialLength)
      ensures name in old(disk) ==> ok && List() == old(List()) && disk == old(disk)
      ensures name !in old(disk) && !(created && filled) ==>
        && !ok && List() == old(List())
        && disk == (if cleaned then old(disk) - {Temp(name)} else old(disk)) + if created then {Temp(name)} else {}
      ensures name !in old(disk) && created && filled ==>
        var disk1 := old(disk) + {Temp(name)};
        var disk2 := DiskAfterTouch(old(List()), name, disk1, removable);
        && List() == Touched(old(List()), name, disk1, removable) && List()[0] == name
        && (ok <==> Temp(name) in disk2 && exists k :: 0 <= k < |renames| && renames[k])
        && disk == (if ok then disk2 - {Temp(name)} + {name} else disk2)
      ensures removable ==> failures == old(failures)
      ensures !writable ==> file == old(file)
      ensures lostSaves == old(lostSaves) + if name !in old(disk) && created && filled && !writable then 1 else 0
      ensures old(Startable(file, disk)) ==>
        (Startable(file, disk) <==>
          (name !in old(disk) && ok ==> writable || IsStaging(name) || name in old(FileList())))
    {
      hide Consistent, Touched, DiskAfterTouch, IsStaging, FailedRemoval, Startable;
      if name in disk { return true; }
      StagingIsNotCovered(name);
      StageFor(name, cleaned, created);
      GainsToCover(old(file), old(disk), disk, Temp(name));
      if !created || !filled { return false; }
      NoFailure(List(), name, disk, removable);
      assert disk == old(disk) + {Temp(name)};
      TouchShrinksDisk(List(), name, disk, removable);
      LessToCover(file, disk);
      var _ := Touch(name, removable, writable);
      assert List()[0] in List();
      StartableFrom(List(), disk, touched, clock, initialLength, failures);
      RenameToCover(file, disk, Temp(name), name);
      ok := Rename(Temp(name), name, renames);
    }

    /** Removes what an earlier attempt left and makes the staging directory. */
    method StageFor(name: string, cleaned: bool, created: bool)
      requires Valid()
      modifies this`disk, this`recoverable
      ensures Valid()
      ensures disk == (if cleaned then old(disk) - {Temp(name)} else old(disk)) + if created then {Temp(name)} else {}
    {
      hide Consistent, IsStaging, Startable;
      StagingIsNotCovered(name);
      MayChange({Temp(name)});
      if cleaned {
        disk := disk - {Temp(name)};
        CoveringIsStartable(List(), file, disk, touched, clock, initialLength, failures);
        Moment();
      }
      if created {
        disk := disk + {Temp(name)};
        CoveringIsStartable(List(), file, disk, touched, clock, initialLength, failures);
        Moment();
      }
    }

    /** Valid() survives losing directories and gaining the given ones. */
    lemma MayChange(gained: set<string>)
      requires Valid() && forall d :: d in gained ==> IsStaging(d) || d in List()
      ensures forall disk' :: disk' <= disk + gained ==>
        Consistent(List(), disk', touched, clock, initialLength, failures)
    {
      hide Consistent;
      forall disk' | disk' <= disk + gained ensures Consistent(List(), disk', touched, clock, initialLength, failures) {
        DiskMayChange(List(), disk, disk', touched, clock, initialLength, failures);
      }
    }

    method Rename(temp: string, name: string, renames: seq<bool>) returns (ok: bool)
      requires Valid() && |renames| == 21 && name in List()
      modifies this`disk, this`recoverable
      ensures Valid()
      ensures disk == if ok then old(disk) - {temp} + {name} else old(disk)
      ensures ok <==> temp in old(disk) && exists k :: 0 <= k < |renames| && renames[k]
    {
      hide Consistent, Startable;
      MayChange({name});
      var attempt := 0;
      while attempt <= RENAME_ATTEMPTS
        invariant 0 <= attempt <= RENAME_ATTEMPTS + 1
        invariant disk == old(disk) && recoverable == old(recoverable)
        invariant temp in disk ==> forall k :: 0 <= k < attempt ==> !renames[k]
      {
        if renames[attempt] && temp in disk {
          disk := disk - {temp} + {name};
          CoveringIsStartable(List(), file, disk, touched, clock, initialLength, failures);
          Moment();
          return true;
        }
        attempt := attempt + 1;
      }
      return false;
    }
  }

  lemma TouchShrinksDisk(l: seq<string>, name: string, disk: set<string>, removable: bool)
    ensures DiskAfterTouch(l, name, disk, removable) <= disk
  {
  }

  lemma LessToCover(file: Option<seq<string>>, disk: set<string>)
    ensures Startable(file, disk) ==> forall disk' :: disk' <= disk ==> Startable(file, disk')
  {
  }

  lemma GainsToCover(file: Option<seq<string>>, disk: set<string>, disk': set<string>, temp: string)
    requires disk' <= disk + {temp} && IsStaging(temp)
    ensures Startable(file, disk) ==> Startable(file, disk')
  {
    hide IsStaging;
  }

  lemma RenameToCover(file: Option<seq<string>>, disk: set<string>, temp: string, name: string)
    ensures Startable(file, disk) ==>
      var l := if file.Some? then file.value else [];
      (Startable(file, disk - {temp} + {name}) <==> IsStaging(name) || name in l)
  {
    hide IsStaging;
  }

  /** A save that fails is enough to lose track: the directory is made, and no file lists it. */
  method FailedSaveLosesTrack() returns (cache: DownloadCache)
    ensures fresh(cache) && cache.lostSaves == 1 && "a" in cache.disk && !Startable(cache.file, cache.disk)
  {
    cache := new DownloadCache(None, {});
    assert DiskAfterTouch([], "a", {Temp("a")}, true) == {Temp("a")};
    assert {} + {Temp("a")} == {Temp("a")};
    var renames := seq(RENAME_ATTEMPTS + 1, _ => true);
    assert renames[0];
    var ok := cache.Create("a", true, true, true, true, false, renames);
    assert !IsStaging("a");
  }

  lemma NoFailure(l: seq<string>, name: string, disk: set<string>, removable: bool)
    ensures removable ==> FailedRemoval(l, name, disk, removable) == 0
  {
  }
}
