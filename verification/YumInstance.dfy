/**
 The hypotheses on the yum publisher's libraries can be met, all at once, and packages can be published under them: here
 are libraries that meet them. With these, file by file: two Adds that tie, and an Add that makes a build fall.
 */
module YumInstance {
  import opened Wrappers
  import opened Text
  import opened Numbers
  import opened Storage
  import opened Sorting
  import opened RetentionLaws
  import opened Yum
  import opened YumKeys
  import opened YumSafety
  import opened YumState
  import opened YumRuns
  import opened YumRetention
  import opened YumEpochs
  import opened Ranking
  import Arrivals
  import RpmVersion

  // ----- texts that can be told apart

  /** s, with its end marked. */
  function Worded(s: string): string {
    if s == "" then "." else "+" + [s[0]] + Worded(s[1..])
  }

  lemma {:induction false} WordedPrefix(x: string, y: string, u: string, v: string)
    requires Worded(x) + u == Worded(y) + v
    ensures x == y && u == v
  {
    var a, b := Worded(x) + u, Worded(y) + v;
    assert a[0] == b[0];
    if x == "" {
      assert a[1..] == u && b[1..] == v;
    } else {
      assert a[2..] == Worded(x[1..]) + u && b[2..] == Worded(y[1..]) + v && a[1] == b[1];
      WordedPrefix(x[1..], y[1..], u, v);
      assert x == [x[0]] + x[1..] && y == [y[0]] + y[1..];
    }
  }

  function Words(l: seq<string>): string {
    if l == [] then "." else "+" + Worded(l[0]) + Words(l[1..])
  }

  lemma {:induction false} WordsInjective(x: seq<string>, y: seq<string>)
    requires Words(x) == Words(y)
    ensures x == y
  {
    hide Worded;
    assert Words(x)[0] == Words(y)[0];
    if x != [] {
      assert Words(x)[1..] == Worded(x[0]) + Words(x[1..]);
      assert Words(y)[1..] == Worded(y[0]) + Words(y[1..]);
      WordedPrefix(x[0], y[0], Words(x[1..]), Words(y[1..]));
      WordsInjective(x[1..], y[1..]);
      assert x == [x[0]] + x[1..] && y == [y[0]] + y[1..];
    }
  }

  function Strokes(n: nat): (s: string)
    ensures |s| == n
  {
    seq(n, _ => '1')
  }

  function Numeral(i: int): string {
    if i < 0 then "-" + Strokes(-i) else "+" + Strokes(i)
  }

  lemma NumeralInjective(i: int, j: int)
    requires Numeral(i) == Numeral(j)
    ensures i == j
  {
    assert Numeral(i)[0] == Numeral(j)[0];
  }

  /** s without slashes. */
  function Escaped(s: string): string {
    if s == "" then ""
    else (if s[0] == '/' then "~s" else if s[0] == '~' then "~~" else [s[0]]) + Escaped(s[1..])
  }

  lemma {:induction false} EscapedHasNoSlash(s: string)
    ensures '/' !in Escaped(s)
  {
    if s != "" {
      EscapedHasNoSlash(s[1..]);
    }
  }

  lemma {:induction false} EscapedInjective(x: string, y: string)
    requires Escaped(x) == Escaped(y)
    ensures x == y
  {
    var a, b := Escaped(x), Escaped(y);
    if x != "" && y != "" {
      assert a[0] == b[0];
      if x[0] == '/' || x[0] == '~' {
        assert a[1] == b[1];
        assert a[2..] == Escaped(x[1..]) && b[2..] == Escaped(y[1..]);
      } else {
        assert a[1..] == Escaped(x[1..]) && b[1..] == Escaped(y[1..]);
      }
      EscapedInjective(x[1..], y[1..]);
      assert x == [x[0]] + x[1..] && y == [y[0]] + y[1..];
    }
  }

  // ----- the encodings

  function HeaderWords(h: Header): seq<string> {
    [h.name, Numeral(h.epoch), h.version, h.release, h.architecture, h.rest]
  }

  function HeaderText(h: Header): string {
    Words(HeaderWords(h))
  }

  lemma HeaderTextInjective(x: Header, y: Header)
    requires HeaderText(x) == HeaderText(y)
    ensures x == y
  {
    hide Words, Numeral;
    var a, b := HeaderWords(x), HeaderWords(y);
    WordsInjective(a, b);
    assert a[0] == b[0] && a[1] == b[1] && a[2] == b[2] && a[3] == b[3] && a[4] == b[4] && a[5] == b[5];
    NumeralInjective(x.epoch, y.epoch);
  }

  function EntryText(e: Entry): string {
    Words([HeaderText(e.meta.header), Numeral(e.meta.size), e.meta.sha256, e.location])
  }

  lemma EntryTextInjective(x: Entry, y: Entry)
    requires EntryText(x) == EntryText(y)
    ensures x == y
  {
    hide Words, Numeral, HeaderText;
    var a := [HeaderText(x.meta.header), Numeral(x.meta.size), x.meta.sha256, x.location];
    var b := [HeaderText(y.meta.header), Numeral(y.meta.size), y.meta.sha256, y.location];
    WordsInjective(a, b);
    assert a[0] == b[0] && a[1] == b[1] && a[2] == b[2] && a[3] == b[3];
    HeaderTextInjective(x.meta.header, y.meta.header);
    NumeralInjective(x.meta.size, y.meta.size);
  }

  function StateText(l: seq<Entry>): string {
    Words(Map(EntryText, l))
  }

  lemma StateTextInjective(x: seq<Entry>, y: seq<Entry>)
    requires StateText(x) == StateText(y)
    ensures x == y
  {
    hide Words, EntryText;
    var a, b := Map(EntryText, x), Map(EntryText, y);
    WordsInjective(a, b);
    forall i | 0 <= i < |x| ensures x[i] == y[i] {
      assert a[i] == b[i];
      EntryTextInjective(x[i], y[i]);
    }
  }

  function DataText(d: RepomdData): string {
    Words([d.kind, d.checksum, d.openChecksum, d.href, Numeral(d.timestamp), Numeral(d.size), Numeral(d.openSize)])
  }

  lemma DataTextInjective(x: RepomdData, y: RepomdData)
    requires DataText(x) == DataText(y)
    ensures x == y
  {
    hide Words, Numeral;
    var a := [x.kind, x.checksum, x.openChecksum, x.href, Numeral(x.timestamp), Numeral(x.size), Numeral(x.openSize)];
    var b := [y.kind, y.checksum, y.openChecksum, y.href, Numeral(y.timestamp), Numeral(y.size), Numeral(y.openSize)];
    WordsInjective(a, b);
    assert a[0] == b[0] && a[1] == b[1] && a[2] == b[2] && a[3] == b[3] && a[4] == b[4] && a[5] == b[5] && a[6] == b[6];
    NumeralInjective(x.timestamp, y.timestamp);
    NumeralInjective(x.size, y.size);
    NumeralInjective(x.openSize, y.openSize);
  }

  function RepomdWords(r: Repomd): string {
    Words([Numeral(r.revision)] + Map(DataText, r.data))
  }

  lemma RepomdWordsInjective(x: Repomd, y: Repomd)
    requires RepomdWords(x) == RepomdWords(y)
    ensures x == y
  {
    hide Words, Numeral, DataText;
    var a, b := [Numeral(x.revision)] + Map(DataText, x.data), [Numeral(y.revision)] + Map(DataText, y.data);
    WordsInjective(a, b);
    assert a[0] == b[0];
    NumeralInjective(x.revision, y.revision);
    assert |x.data| == |y.data|;
    forall i | 0 <= i < |x.data| ensures x.data[i] == y.data[i] {
      assert a[i + 1] == b[i + 1];
      DataTextInjective(x.data[i], y.data[i]);
    }
  }

  // ----- sorting

  function Inserted(l: seq<Entry>, e: Entry): seq<Entry> {
    if l == [] || CompareEntries(e, l[0]) <= 0 then [e] + l else [l[0]] + Inserted(l[1..], e)
  }

  function InsertionSort(l: seq<Entry>): seq<Entry> {
    if l == [] then [] else Inserted(InsertionSort(l[1..]), l[0])
  }

  lemma {:induction false} InsertedAre(l: seq<Entry>, e: Entry)
    ensures multiset(Inserted(l, e)) == multiset(l) + multiset{e}
  {
    hide CompareEntries;
    if l != [] && CompareEntries(e, l[0]) > 0 {
      InsertedAre(l[1..], e);
      assert l == [l[0]] + l[1..];
    }
  }

  lemma {:induction false} InsertionSortPermutes(l: seq<Entry>)
    ensures multiset(InsertionSort(l)) == multiset(l)
  {
    hide Inserted;
    if l != [] {
      InsertionSortPermutes(l[1..]);
      InsertedAre(InsertionSort(l[1..]), l[0]);
      assert l == [l[0]] + l[1..];
    }
  }

  lemma InOrderCons(e: Entry, l: seq<Entry>)
    requires InOrder(l) && forall x | x in l :: CompareEntries(e, x) <= 0
    ensures InOrder([e] + l)
  {
    hide CompareEntries;
    var all := [e] + l;
    forall i, j | 0 <= i < j < |all| ensures CompareEntries(all[i], all[j]) <= 0 {
      assert all[j] == l[j - 1];
      if i > 0 {
        assert all[i] == l[i - 1];
      }
    }
  }

  lemma FirstComesFirst(l: seq<Entry>)
    requires AllProper(l) && InOrder(l) && l != []
    ensures forall x | x in l :: CompareEntries(l[0], x) <= 0
    ensures InOrder(l[1..]) && AllProper(l[1..]) && ProperEntry(l[0])
  {
    hide CompareEntries, ProperEntry;
    CompareEntriesLaws(l[0], l[0], l[0]);
  }

  lemma {:induction false} InsertedInOrder(l: seq<Entry>, e: Entry)
    requires AllProper(l) && ProperEntry(e) && InOrder(l)
    ensures InOrder(Inserted(l, e))
  {
    hide CompareEntries, ProperEntry, InOrder, AllProper;
    if l == [] {
      InOrderCons(e, []);
    } else {
      var first, rest := l[0], l[1..];
      assert l == [first] + rest;
      FirstComesFirst(l);
      if CompareEntries(e, first) <= 0 {
        forall x | x in l ensures CompareEntries(e, x) <= 0 {
          ProperMember(l, x);
          CompareEntriesLaws(e, first, x);
        }
        InOrderCons(e, l);
      } else {
        InsertedInOrder(rest, e);
        InsertedAre(rest, e);
        CompareEntriesLaws(first, e, e);
        SameMembers(Inserted(rest, e), rest + [e]);
        InOrderCons(first, Inserted(rest, e));
      }
    }
  }

  lemma ProperMember(l: seq<Entry>, x: Entry)
    requires AllProper(l) && x in l
    ensures ProperEntry(x)
  {
  }

  lemma {:induction false} InsertionSortSorts(l: seq<Entry>)
    requires AllProper(l)
    ensures InOrder(InsertionSort(l)) && AllProper(InsertionSort(l))
  {
    hide CompareEntries, ProperEntry, Inserted;
    if l != [] {
      assert l == [l[0]] + l[1..];
      InsertionSortSorts(l[1..]);
      InsertedInOrder(InsertionSort(l[1..]), l[0]);
      InsertionSortPermutes(l);
      SameMembers(InsertionSort(l), l);
    }
  }

  // ----- the libraries

  /** What f was applied to, if to anything. */
  ghost function Undo<A(!new), B(!new)>(f: A -> B): B -> Option<A> {
    (y: B) => if exists x :: f(x) == y then Some(var x :| f(x) == y; x) else None
  }

  lemma UndoIs<A(!new), B(!new)>(f: A -> B)
    requires forall x, y :: f(x) == f(y) ==> x == y
    ensures forall x :: Undo(f)(f(x)) == Some(x)
  {
  }

  ghost function Library(): Tools {
    Tools(Escaped, (x: string) => x, Undo(HeaderText), StateText, Undo(StateText),
          (kind: string, l: seq<Entry>) => Words([kind, StateText(l)]), RepomdWords, InsertionSort)
  }

  ghost function Reader(): Client {
    Client((x: string) => Some(x), Undo(RepomdWords))
  }

  ghost function Listing(): set<string> -> seq<string> {
    (s: set<string>) => Sorted(s)
  }

  /** Under these libraries and this listing all hypotheses hold. */
  lemma HypothesesHold()
    ensures Setting(Library(), Reader()) && Enumerates(Listing())
  {
    hide Escaped, StateText, RepomdWords, InsertionSort, Undo, CompareEntries, HeaderText;
    LibraryIsFaithful();
    forall l | AllProper(l) ensures InOrder(InsertionSort(l)) {
      InsertionSortSorts(l);
    }
    ListingEnumerates();
  }

  lemma LibraryIsFaithful()
    ensures Faithful(Library(), Reader())
  {
    hide Escaped, StateText, RepomdWords, InsertionSort, HeaderText, Undo;
    forall x ensures '/' !in Escaped(x) {
      EscapedHasNoSlash(x);
    }
    forall x, y | Escaped(x) == Escaped(y) ensures x == y {
      EscapedInjective(x, y);
    }
    forall x, y | StateText(x) == StateText(y) ensures x == y {
      StateTextInjective(x, y);
    }
    UndoIs(StateText);
    forall x, y | RepomdWords(x) == RepomdWords(y) ensures x == y {
      RepomdWordsInjective(x, y);
    }
    UndoIs(RepomdWords);
    forall l ensures multiset(InsertionSort(l)) == multiset(l) {
      InsertionSortPermutes(l);
    }
  }

  lemma ListingEnumerates()
    ensures Enumerates(Listing())
  {
    hide Compare;
    forall s: set<string>, k ensures k in Sorted(s) <==> k in s {
      assert k in Elements(Sorted(s)) <==> k in s;
    }
    forall s: set<string>, i, j | 0 <= i < j < |Sorted(s)| ensures Sorted(s)[i] != Sorted(s)[j] {
      assert Compare(Sorted(s)[i], Sorted(s)[j]) < 0;
      CompareSame(Sorted(s)[i]);
    }
  }

  /** Every package with a proper header has a file from which it is read. */
  lemma EveryPackageHasAFile(h: Header)
    requires GoodHeader(h)
    ensures var data := HeaderText(h); var p := ParseRpm(Library(), data);
            p == Some(Package(h, |data|, Escaped(data)))
  {
    hide HeaderText, Escaped, Undo, StateText;
    forall x, y | HeaderText(x) == HeaderText(y) ensures x == y {
      HeaderTextInjective(x, y);
    }
    UndoIs(HeaderText);
  }

  // ----- Adds, file by file

  /** Room for one version, and no signer. */
  function RoomForOne(): Config {
    Config(1, None)
  }

  function Build(evr: RpmVersion.EVR): Header {
    Header("a", evr.epoch, evr.version, evr.release, "b", "")
  }

  function AddBuild(evr: RpmVersion.EVR): Op {
    AddOp(HeaderText(Build(evr)), 0)
  }

  function Built(evr: RpmVersion.EVR): Identity {
    Identity("a", "b", evr)
  }

  predicate GoodEVR(evr: RpmVersion.EVR) {
    RpmVersion.ProperEpoch(evr) && Word(evr.version) && Word(evr.release) && '-' !in evr.version && '-' !in evr.release
  }

  lemma AddedBuild(evr: RpmVersion.EVR)
    requires GoodEVR(evr)
    ensures GoodOp(Library(), AddBuild(evr)) && Adds(Library(), AddBuild(evr))
    ensures IdentityOf(Added(Library(), AddBuild(evr))) == Built(evr) && Proper(Built(evr))
  {
    hide HeaderText, Escaped, ParseRpm, PoolPath;
    EveryPackageHasAFile(Build(evr));
  }

  lemma {:induction false} AddsAreGood(evrs: seq<RpmVersion.EVR>, ops: seq<Op>)
    requires |evrs| == |ops| && forall i | 0 <= i < |ops| :: GoodEVR(evrs[i]) && ops[i] == AddBuild(evrs[i])
    ensures OnlyAdds(Library(), ops) && GoodOps(Library(), ops)
  {
    hide GoodEVR, AddBuild, Adds, GoodOp, HeaderText;
    forall op | op in ops ensures op.AddOp? && GoodOp(Library(), op) {
      var i :| 0 <= i < |ops| && ops[i] == op;
      AddedBuild(evrs[i]);
      AddsAreAdds(Library(), op);
    }
  }

  /** Two Adds of one package, its release spelt 1 and 01: with room for one, which of them is listed depends on which
      came first. */
  lemma TiedAdds()
    ensures var t, cfg := Library(), RoomForOne();
            var x, y := RpmVersion.EVR(0, "1", "1"), RpmVersion.EVR(0, "1", "01");
            var ops := [AddBuild(x), AddBuild(y)];
            && GoodOps(t, ops) && EverAdded(t, ops) == {Built(x), Built(y)}
            && exists other :: multiset(other) == multiset(ops) &&
                 Published(t, Run(t, cfg, Listing(), other)) != Published(t, Run(t, cfg, Listing(), ops))
  {
    hide AddBuild, GoodOp, Adds, Added, IdentityOf, Published, Run, Arrivals.TieAtCut, Library, Listing, Setting,
      EverAdded, Standing, IdentityKey, CompareIdentities, Enumerates;
    var t, cfg := Library(), RoomForOne();
    var x, y := RpmVersion.EVR(0, "1", "1"), RpmVersion.EVR(0, "1", "01");
    var ops := [AddBuild(x), AddBuild(y)];
    HypothesesHold();
    SignsAlways();
    AddedBuild(x);
    AddedBuild(y);
    AddsAreGood([x, y], ops);
    AddedTwo(t, AddBuild(x), AddBuild(y));
    SpellingsTie("a", "b");
    AddsStand(t, cfg, ops);
    OrderMattersExactlyForTies(t, Reader(), cfg, Listing(), ops);
  }

  lemma AddedTwo(t: Tools, x: Op, y: Op)
    requires Adds(t, x) && Adds(t, y)
    ensures EverAdded(t, [x, y]) == {IdentityOf(Added(t, x)), IdentityOf(Added(t, y))}
  {
    hide Adds, IdentityOf;
    assert x in [x, y] && y in [x, y];
  }

  // ----- a build that falls

  const HIGH := RpmVersion.EVR(5, "1", "1")
  const OTHER_BUILD := RpmVersion.EVR(0, "2", "1")
  const LOW := RpmVersion.EVR(0, "1", "1")

  /** a-1-1 at epoch 5, a-2-1, and a-1-1 again, at epoch 0. */
  function Lowering(): seq<Op> {
    [AddBuild(HIGH), AddBuild(OTHER_BUILD), AddBuild(LOW)]
  }

  lemma LoweringOrder()
    ensures CompareIdentities(Built(HIGH), Built(OTHER_BUILD)) > 0
    ensures CompareIdentities(Built(OTHER_BUILD), Built(LOW)) > 0
  {
    hide RpmVersion.PrintEVR, RpmVersion.CompareVersions, RpmVersion.ComponentOrder;
    assert Value("1") == 1 && Value("2") == 2;
    RpmVersion.NumbersCompare("2", "1");
    RpmVersion.ComparePrinted(HIGH, OTHER_BUILD);
    RpmVersion.ComparePrinted(OTHER_BUILD, LOW);
  }

  lemma LoweringStands()
    ensures var t, cfg, ops := Library(), RoomForOne(), Lowering();
            && Standing(t, cfg, ops[..0]) == {} && Standing(t, cfg, ops[..1]) == {Built(HIGH)}
            && Standing(t, cfg, ops[..2]) == {Built(HIGH), Built(OTHER_BUILD)}
            && Standing(t, cfg, ops) == {Built(OTHER_BUILD), Built(LOW)}
  {
    hide AddBuild, Adds, Added, IdentityOf, Library, RunEntries;
    var t, cfg, ops := Library(), RoomForOne(), Lowering();
    AddedBuild(HIGH);
    AddedBuild(OTHER_BUILD);
    AddedBuild(LOW);
    AddsAreGood([HIGH, OTHER_BUILD, LOW], ops);
    assert ops[..1][..0] == ops[..0] && ops[..2][..1] == ops[..1] && ops[..3] == ops;
    StandingStep(t, cfg, ops[..1]);
    StandingStep(t, cfg, ops[..2]);
    StandingStep(t, cfg, ops);
  }

  lemma NewestOfTwo(x: Identity, y: Identity)
    requires Proper(x) && Proper(y) && IdentityKey(x) == IdentityKey(y) && CompareIdentities(x, y) > 0
    ensures Newest(RoomForOne(), {x, y}) == {x}
    ensures Untied({}) && Untied({x}) && Untied({x, y})
  {
    hide Proper, IdentityKey, CompareIdentities;
    IdentityLaws(x, y, y);
    IdentityLaws(y, x, x);
    var newer := Newer(IdentityKey, CompareIdentities);
    assert Before({x, y}, newer, x) == {} && Before({x, y}, newer, y) == {x};
  }

  lemma LoweringBuilds()
    ensures var t, ops := Library(), Lowering();
            && OnlyAdds(t, ops) && GoodOps(t, ops) && Adds(t, ops[0]) && Adds(t, ops[1]) && Adds(t, ops[2])
            && IdentityOf(Added(t, ops[0])) == Built(HIGH) && IdentityOf(Added(t, ops[1])) == Built(OTHER_BUILD)
            && IdentityOf(Added(t, ops[2])) == Built(LOW)
  {
    hide AddBuild, Adds, Added, IdentityOf, Library, GoodOp;
    AddedBuild(HIGH);
    AddedBuild(OTHER_BUILD);
    AddedBuild(LOW);
    AddsAreGood([HIGH, OTHER_BUILD, LOW], Lowering());
  }

  lemma LoweringFalls()
    ensures var t, cfg, ops := Library(), RoomForOne(), Lowering();
            && NeverTies(t, cfg, ops)
            && !FallsAt(t, cfg, ops, 0) && !FallsAt(t, cfg, ops, 1) && FallsAt(t, cfg, ops, 2)
            && Newest(cfg, Standing(t, cfg, ops[..2])) == {Built(HIGH)}
            && Newest(cfg, Standing(t, cfg, ops)) == {Built(OTHER_BUILD)}
  {
    hide AddBuild, Adds, Added, IdentityOf, Library, Standing, CompareIdentities, Lowering, Untied;
    var t, cfg, ops := Library(), RoomForOne(), Lowering();
    var high, other, low := Built(HIGH), Built(OTHER_BUILD), Built(LOW);
    LoweringLength();
    LoweringBuilds();
    LoweringStands();
    LoweringOrder();
    NewestOfTwo(high, other);
    NewestOfTwo(other, low);
    assert ops[..3] == ops;
    forall n | 0 <= n <= |ops| ensures Untied(Standing(t, cfg, ops[..n])) {
      assert n == 0 || n == 1 || n == 2 || n == 3;
    }
    TopSubset({high}, Newer(IdentityKey, CompareIdentities), 1);
    var newest := Newest(cfg, {high, other});
    assert high in newest && FileOf(high) == FileOf(low) && other !in newest;
    NewerMeans(IdentityKey, CompareIdentities);
    assert Newer(IdentityKey, CompareIdentities)(other, low);
    assert FileOf(high) != FileOf(other);
  }

  lemma LoweringLength()
    ensures |Lowering()| == 3
  {
  }

  /** With room for one, a-1-1 at epoch 5 drives out a-2-1. Added again, at epoch 0, it is the older of the two, and is
      listed all the same. */
  lemma LoweredAdd()
    ensures var t, cfg, ops := Library(), RoomForOne(), Lowering();
            && GoodOps(t, ops) && NeverTies(t, cfg, ops) && FallsAt(t, cfg, ops, 2)
            && Published(t, Run(t, cfg, Listing(), ops)) == Some({Built(LOW)})
            && Newest(cfg, Standing(t, cfg, ops)) == {Built(OTHER_BUILD)}
  {
    hide GoodOp, Adds, Added, IdentityOf, Published, Run, Library, Listing, Standing, IdentityKey, CompareIdentities,
      Enumerates, Setting, FallsAt, NeverTies, Newest, Succeeds, Lowering, ListsNewest, Untied, AlwaysSigns, GoodOps;
    var t, cfg, ops := Library(), RoomForOne(), Lowering();
    HypothesesHold();
    LoweringLength();
    LoweringBuilds();
    LoweringFalls();
    assert AlwaysSigns(cfg) by {
      SignsAlways();
    }
    AddsSucceed(t, Reader(), cfg, Listing(), ops);
    UnlessOneFalls(t, Reader(), cfg, ops, 2);
    PrefixSucceeds(t, cfg, Listing(), ops, 2);
    PrefixIsGood(t, ops, 2);
    PublishesWhatItLists(t, Reader(), cfg, Listing(), ops[..2]);
    TiesNever(t, cfg, ops, 2);
    TiesNever(t, cfg, ops, 3);
    assert ops[..3] == ops && |ops| - 1 == 2;
    var lost := LoweredEpochLosesNewer(t, Reader(), cfg, Listing(), ops);
    var p := Published(t, Run(t, cfg, Listing(), ops));
    assert FileOf(Built(HIGH)) == FileOf(Built(LOW));
    assert Arrive({Built(HIGH)}, FileOf, Built(LOW)) == {Built(LOW)};
    assert p == Some(Newest(cfg, {Built(LOW)}));
    NewestStand(cfg, {Built(LOW)});
    assert p.value == {Built(LOW)};
  }

  lemma SignsAlways()
    ensures AlwaysSigns(RoomForOne())
  {
  }

  lemma TiesNever(t: Tools, cfg: Config, ops: seq<Op>, n: nat)
    requires NeverTies(t, cfg, ops) && n <= |ops|
    ensures Untied(Standing(t, cfg, ops[..n]))
  {
  }

  // ----- one file at two epochs

  lemma NewestOfOne(x: Identity)
    requires Proper(x)
    ensures Newest(RoomForOne(), {x}) == {x} && Untied({}) && Untied({x})
  {
    hide Proper, IdentityKey, CompareIdentities;
    IdentityLaws(x, x, x);
    assert Before({x}, Newer(IdentityKey, CompareIdentities), x) == {};
  }

  lemma TwoEpochsStand(x: RpmVersion.EVR, y: RpmVersion.EVR)
    requires GoodEVR(x) && GoodEVR(y) && x.version == y.version && x.release == y.release
    ensures var t, cfg, ops := Library(), RoomForOne(), [AddBuild(x), AddBuild(y)];
            && Standing(t, cfg, ops[..0]) == {} && Standing(t, cfg, ops[..1]) == {Built(x)}
            && Standing(t, cfg, ops) == {Built(y)}
            && OnlyAdds(t, ops) && GoodOps(t, ops) && Proper(Built(x)) && Proper(Built(y))
  {
    hide AddBuild, Adds, Added, IdentityOf, Library, RunEntries, GoodOp, GoodEVR;
    var t, cfg, ops := Library(), RoomForOne(), [AddBuild(x), AddBuild(y)];
    AddedBuild(x);
    AddedBuild(y);
    AddsAreGood([x, y], ops);
    assert ops[..1][..0] == ops[..0] && ops[..2] == ops;
    StandingStep(t, cfg, ops[..1]);
    StandingStep(t, cfg, ops);
  }

  /** A file added at two epochs is listed at the last: where epochs change, the order of the Adds decides without any
      tie. */
  lemma LastEpochIsListed(x: RpmVersion.EVR, y: RpmVersion.EVR)
    requires GoodEVR(x) && GoodEVR(y) && x.version == y.version && x.release == y.release
    ensures Published(Library(), Run(Library(), RoomForOne(), Listing(), [AddBuild(x), AddBuild(y)])) ==
            Some({Built(y)})
  {
    hide AddBuild, Adds, Added, IdentityOf, Library, Listing, Standing, Run, Published, Enumerates, Setting, Succeeds,
      Newest, Untied, AlwaysSigns, GoodOps, ListsNewest, GoodEVR, Proper, CompareIdentities, IdentityKey;
    var t, cfg, ops := Library(), RoomForOne(), [AddBuild(x), AddBuild(y)];
    HypothesesHold();
    SignsAlways();
    TwoEpochsStand(x, y);
    NewestOfOne(Built(x));
    NewestOfOne(Built(y));
    assert ops[..2] == ops;
    forall n | 0 <= n <= |ops| ensures Untied(Standing(t, cfg, ops[..n])) {
      assert n == 0 || n == 1 || n == 2;
    }
    forall n | 0 <= n < 2 ensures !FallsAt(t, cfg, ops, n) {
      assert n == 0 || n == 1;
      NewestAll(t, cfg, ops, n);
    }
    UnlessOneFalls(t, Reader(), cfg, ops, 2);
    AddsSucceed(t, Reader(), cfg, Listing(), ops);
    PublishesWhatItLists(t, Reader(), cfg, Listing(), ops);
  }

  /** Nothing falls below what is not listed when all is. */
  lemma NewestAll(t: Tools, cfg: Config, ops: seq<Op>, n: nat)
    requires n < |ops| && Standing(t, cfg, ops[..n]) <= Newest(cfg, Standing(t, cfg, ops[..n]))
    ensures !FallsAt(t, cfg, ops, n)
  {
    hide Adds, IdentityOf, FileOf, Newer, Standing;
  }
}
