/**
 The state of a yum repository: the entries of its manifest, what the bucket then holds, and what publishing makes
 of a bucket.
 */
module YumState {
  import opened Wrappers
  import opened Text
  import opened Numbers
  import opened Storage
  import opened Retention
  import opened RetentionLaws
  import opened Yum
  import opened YumKeys
  import opened YumPublisher
  import opened YumSafety
  import RpmVersion

  // ----- permutations

  lemma {:induction false} CountConcat<T>(x: seq<T>, y: seq<T>, p: T -> bool)
    ensures Count(x + y, p) == Count(x, p) + Count(y, p)
  {
    hide Count;
    if y == [] {
      assert x + y == x;
      CountNone(p);
    } else {
      var n := |y| - 1;
      assert x + y == (x + y[..n]) + [y[n]] && y == y[..n] + [y[n]];
      CountConcat(x, y[..n], p);
      CountSnoc(x + y[..n], y[n], p);
      CountSnoc(y[..n], y[n], p);
    }
  }

  lemma CountNone<T>(p: T -> bool)
    ensures Count([], p) == 0
  {
  }

  lemma Cancel<T>(m: multiset<T>, n: multiset<T>, e: T)
    requires m + multiset{e} == n + multiset{e}
    ensures m == n
  {
    assert m == (m + multiset{e}) - multiset{e} && n == (n + multiset{e}) - multiset{e};
  }

  lemma Taken<T>(front: seq<T>, e: T, y1: seq<T>, y2: seq<T>)
    requires multiset(front + [e]) == multiset(y1 + [e] + y2)
    ensures multiset(front) == multiset(y1 + y2)
  {
    var m, a, b := multiset(front), multiset(y1), multiset(y2);
    assert multiset(front + [e]) == m + multiset{e};
    assert multiset(y1 + [e] + y2) == (a + multiset{e}) + b;
    assert (a + multiset{e}) + b == (a + b) + multiset{e};
    Cancel(m, a + b, e);
  }

  /** Counting does not depend on order. */
  lemma {:induction false} CountPermuted<T>(x: seq<T>, y: seq<T>, p: T -> bool)
    requires multiset(x) == multiset(y)
    ensures Count(x, p) == Count(y, p)
    decreases |x|
  {
    hide Count;
    if x == [] {
      assert |multiset(y)| == 0;
      CountNone(p);
    } else {
      var n := |x| - 1;
      var e, front := x[n], x[..n];
      assert x == front + [e];
      assert e in multiset(y);
      var i :| 0 <= i < |y| && y[i] == e;
      var y1, y2 := y[..i], y[i + 1..];
      assert y == y1 + [e] + y2;
      Taken(front, e, y1, y2);
      CountPermuted(front, y1 + y2, p);
      CountSnoc(front, e, p);
      CountSnoc(y1, e, p);
      CountConcat(y1 + [e], y2, p);
      CountConcat(y1, y2, p);
    }
  }

  lemma CappedPermuted(x: seq<Entry>, y: seq<Entry>, keep: int)
    requires multiset(x) == multiset(y) && Capped(x, keep, GroupKey)
    ensures Capped(y, keep, GroupKey)
  {
    forall g: string ensures Count(y, InGroup<Entry>(GroupKey, g)) <= keep {
      CountPermuted(x, y, InGroup<Entry>(GroupKey, g));
    }
  }

  lemma SameMembers<T>(x: seq<T>, y: seq<T>)
    requires multiset(x) == multiset(y)
    ensures forall e :: e in x <==> e in y
  {
    forall e ensures e in x <==> e in y {
      assert e in x <==> e in multiset(x);
      assert e in y <==> e in multiset(y);
    }
  }

  /** No two entries have the same location. */
  ghost predicate Unique(m: multiset<Entry>) {
    && (forall e | e in m :: m[e] == 1)
    && (forall e, f | e in m && f in m && e.location == f.location :: e == f)
  }

  lemma UniqueParts(x: multiset<Entry>, y: multiset<Entry>)
    requires Unique(x + y)
    ensures Unique(x) && Unique(y)
    ensures forall e, f | e in x && f in y :: e.location != f.location
  {
    forall e | e in x + y ensures (x + y)[e] == x[e] + y[e] == 1 {
    }
  }

  lemma UniqueIndices(l: seq<Entry>, i: nat, j: nat)
    requires Unique(multiset(l)) && i < j < |l|
    ensures l[i].location != l[j].location
  {
    var x, y := l[..j], l[j..];
    assert l == x + y;
    assert multiset(l) == multiset(x) + multiset(y);
    assert l[i] == x[i] && l[j] == y[0];
    UniqueParts(multiset(x), multiset(y));
    assert l[i] in multiset(x) && l[j] in multiset(y);
  }

  // ----- sorting

  predicate ProperEntry(e: Entry) {
    GoodHeader(e.meta.header) && 0 <= e.meta.header.epoch <= MAX_INT64
  }

  ghost predicate AllProper(l: seq<Entry>) {
    forall e | e in l :: ProperEntry(e)
  }

  ghost predicate InOrder(l: seq<Entry>) {
    forall i, j :: 0 <= i < j < |l| ==> CompareEntries(l[i], l[j]) <= 0
  }

  /** What `slices.SortFunc` does when the comparison is an order. */
  ghost predicate Sorts(t: Tools) {
    forall l :: AllProper(l) ==> InOrder(t.sort(l))
  }

  ghost predicate Setting(t: Tools, c: Client) {
    Faithful(t, c) && Sorts(t)
  }

  function Triple(e: Entry): RpmVersion.EVR {
    RpmVersion.EVR(e.meta.header.epoch, e.meta.header.version, e.meta.header.release)
  }

  lemma ProperTriple(e: Entry)
    requires ProperEntry(e)
    ensures RpmVersion.ProperEpoch(Triple(e)) && RpmVersion.SplitEVR(EvrOf(e.meta)) == Triple(e)
  {
    hide RpmVersion.SplitEVR, RpmVersion.PrintEVR;
    RpmVersion.SplitOfPrint(Triple(e));
  }

  lemma ProperAreNear(l: seq<Entry>)
    requires AllProper(l)
    ensures AllNear(SplitsOf(l))
  {
    hide ProperEntry, RpmVersion.ProperEpoch, RpmVersion.SplitEVR, EvrOf, RpmVersion.EpochsNear;
    forall e | e in l ensures RpmVersion.ProperEpoch(RpmVersion.SplitEVR(EvrOf(e.meta))) {
      ProperTriple(e);
    }
    forall u, v | u in SplitsOf(l) && v in SplitsOf(l) ensures RpmVersion.EpochsNear(u, v) {
      RpmVersion.ProperIsNear(u, v);
    }
  }

  lemma ProperOrders(l: seq<Entry>)
    requires AllProper(l)
    ensures Orders(l, CompareByEvr)
  {
    hide AllProper, AllNear;
    ProperAreNear(l);
    AllNearOrder(l, SplitsOf(l));
  }

  /** The order of the documents is a total preorder on proper entries. */
  lemma CompareEntriesLaws(x: Entry, y: Entry, z: Entry)
    requires ProperEntry(x) && ProperEntry(y) && ProperEntry(z)
    ensures CompareEntries(x, y) < 0 <==> CompareEntries(y, x) > 0
    ensures CompareEntries(x, y) <= 0 && CompareEntries(y, z) <= 0 ==> CompareEntries(x, z) <= 0
  {
    hide CompareByEvr, Compare, ProperEntry;
    CompareAntisymmetric(x.meta.header.name, y.meta.header.name);
    CompareAntisymmetric(x.meta.header.architecture, y.meta.header.architecture);
    ProperOrders([x, y, z]);
    assert x in [x, y, z] && y in [x, y, z] && z in [x, y, z];
    var nx, ny, nz := x.meta.header.name, y.meta.header.name, z.meta.header.name;
    var ax, ay, az := x.meta.header.architecture, y.meta.header.architecture, z.meta.header.architecture;
    CompareAntisymmetric(ny, nz);
    CompareAntisymmetric(nx, nz);
    CompareAntisymmetric(ay, az);
    CompareAntisymmetric(ax, az);
    if CompareEntries(x, y) <= 0 && CompareEntries(y, z) <= 0 {
      CompareTransitive(nx, ny, nz);
      if nx == nz {
        CompareTransitive(ny, nz, nx);
        assert Compare(nx, ny) == 0;
        CompareTransitive(ax, ay, az);
        if ax == az {
          CompareTransitive(ay, az, ax);
          assert Compare(ax, ay) == 0;
        }
      }
    }
  }

  // ----- what the bucket holds

  /** The bytes stored for an entry are those that its metadata was read from. */
  ghost predicate Stored(t: Tools, b: Bucket, e: Entry) {
    && ProperEntry(e)
    && e.location == PoolPath(e.meta.header)
    && e.location in b && ParseRpm(t, b[e.location]) == Some(e.meta)
  }

  /** The packages in the bucket are those of the entries. */
  ghost predicate Holds(t: Tools, b: Bucket, l: seq<Entry>) {
    && Unique(multiset(l))
    && (forall e | e in l :: Stored(t, b, e))
    && (forall k | k in b && HasPrefix(k, "Packages/") :: exists e :: e in l && e.location == k)
  }

  /** The documents in the bucket are those of the entries, and there are no others. */
  ghost predicate Documented(t: Tools, b: Bucket, l: seq<Entry>, ts: int) {
    && InOrder(l) && Written(t, b, l)
    && Has(b, REPOMD_KEY, RepomdText(t, l, ts)) && Has(b, STATE_KEY, t.encodeState(l))
    && (forall k | k in b && HasPrefix(k, "repodata/") && IsMetadataFile(k) :: k in Hrefs(t, l))
  }

  ghost predicate Blank(b: Bucket, l: seq<Entry>) {
    && l == [] && REPOMD_KEY !in b && STATE_KEY !in b
    && (forall k | k in b && HasPrefix(k, "repodata/") :: !IsMetadataFile(k))
  }

  ghost predicate WithinCap(cfg: Config, l: seq<Entry>) {
    cfg.keepVersions > 0 ==> Capped(l, cfg.keepVersions, GroupKey)
  }

  ghost predicate Represents(t: Tools, cfg: Config, b: Bucket, l: seq<Entry>) {
    && Holds(t, b, l) && WithinCap(cfg, l)
    && (Blank(b, l) || exists ts :: Documented(t, b, l, ts))
  }

  lemma StateIs(t: Tools, c: Client, cfg: Config, b: Bucket, l: seq<Entry>)
    requires Faithful(t, c) && Represents(t, cfg, b, l)
    ensures LoadState(t, b) == Some(l)
  {
    hide InOrder, Written, Holds, WithinCap, RepomdText;
  }

  // ----- what publishing makes of a bucket

  ghost function MetadataKeys(b: Bucket): set<string> {
    set k | k in b && HasPrefix(k, "repodata/") && IsMetadataFile(k)
  }

  ghost function Swept(b: Bucket): Bucket {
    b - MetadataKeys(b)
  }

  function Signature(cfg: Config, text: string): Option<string> {
    if cfg.signer.None? then None else cfg.signer.value(text)
  }

  predicate CanSign(cfg: Config, text: string) {
    cfg.signer.None? || cfg.signer.value(text).Some?
  }

  /** The objects that publishing entries writes. */
  function MetadataObjects(t: Tools, cfg: Config, l: seq<Entry>, ts: int): Bucket {
    var text := RepomdText(t, l, ts);
    var objects := map[HrefOf(t, PRIMARY, l) := Compressed(t, PRIMARY, l),
                       HrefOf(t, FILELISTS, l) := Compressed(t, FILELISTS, l),
                       HrefOf(t, OTHER, l) := Compressed(t, OTHER, l),
                       REPOMD_KEY := text, STATE_KEY := t.encodeState(l)];
    if Signature(cfg, text).Some? then objects[SIGNATURE_KEY := Signature(cfg, text).value] else objects
  }

  lemma SignPlanIs(cfg: Config, text: string)
    ensures SignPlan(cfg, text).complete <==> CanSign(cfg, text)
    ensures CanSign(cfg, text) ==>
              SignPlan(cfg, text).steps ==
              if Signature(cfg, text).Some? then [Put(SIGNATURE_KEY, Signature(cfg, text).value)] else []
  {
  }

  lemma ApplyPut(b: Bucket, steps: seq<Step>, key: string, body: string)
    ensures Apply(b, steps + [Put(key, body)]) == Apply(b, steps)[key := body]
  {
    hide Apply;
    ApplyConcat(b, steps, [Put(key, body)]);
    ApplyOne(Apply(b, steps), Put(key, body));
  }

  /** All writes but those of the documents. */
  lemma ApplyTail(b: Bucket, m: seq<Step>, text: string, signature: Option<string>, state: string)
    ensures var sign := if signature.Some? then [Put(SIGNATURE_KEY, signature.value)] else [];
            var b2 := Apply(b, m)[REPOMD_KEY := text];
            var b3 := if signature.Some? then b2[SIGNATURE_KEY := signature.value] else b2;
            Apply(b, (m + [Put(REPOMD_KEY, text)]) + (sign + [Put(STATE_KEY, state)])) == b3[STATE_KEY := state]
  {
    hide Apply;
    var r, s := m + [Put(REPOMD_KEY, text)], [Put(STATE_KEY, state)];
    ApplyPut(b, m, REPOMD_KEY, text);
    if signature.Some? {
      var g := [Put(SIGNATURE_KEY, signature.value)];
      ApplyPut(b, r, SIGNATURE_KEY, signature.value);
      ApplyPut(b, r + g, STATE_KEY, state);
      assert r + (g + s) == (r + g) + s;
    } else {
      ApplyPut(b, r, STATE_KEY, state);
      assert r + ([] + s) == r + s;
    }
  }

  lemma WrittenObjects(t: Tools, cfg: Config, b: Bucket, l: seq<Entry>, ts: int)
    requires Collisionless(t) && CanSign(cfg, RepomdText(t, l, ts))
    ensures WritePlan(t, cfg, l, ts).complete
    ensures Apply(b, WritePlan(t, cfg, l, ts).steps) == b + MetadataObjects(t, cfg, l, ts)
  {
    hide Apply, RepomdText, Compressed, Href, SignPlan, Signature, CanSign;
    HrefsDiffer(t, l);
    var text := RepomdText(t, l, ts);
    var p, f, o := HrefOf(t, PRIMARY, l), HrefOf(t, FILELISTS, l), HrefOf(t, OTHER, l);
    var vp, vf, vo := Compressed(t, PRIMARY, l), Compressed(t, FILELISTS, l), Compressed(t, OTHER, l);
    SignPlanIs(cfg, text);
    ThreePuts(b, p, vp, f, vf, o, vo);
    ApplyTail(b, MetadataSteps(t, l), text, Signature(cfg, text), t.encodeState(l));
    ObjectsInOrder(b, p, vp, f, vf, o, vo, text, Signature(cfg, text), t.encodeState(l));
  }

  lemma ObjectsInOrder(b: Bucket, p: string, vp: string, f: string, vf: string, o: string, vo: string,
                       text: string, signature: Option<string>, state: string)
    ensures var b2 := b[p := vp][f := vf][o := vo][REPOMD_KEY := text];
            var b3 := if signature.Some? then b2[SIGNATURE_KEY := signature.value] else b2;
            var objects := map[p := vp, f := vf, o := vo, REPOMD_KEY := text, STATE_KEY := state];
            b3[STATE_KEY := state] == b + if signature.Some? then objects[SIGNATURE_KEY := signature.value] else objects
  {
    assert |STATE_KEY| == 28 && |SIGNATURE_KEY| == 23;
  }

  lemma ObjectsKeys(t: Tools, cfg: Config, l: seq<Entry>, ts: int)
    requires Collisionless(t)
    ensures forall k | k in MetadataObjects(t, cfg, l, ts) ::
              HasPrefix(k, "repodata/") && (IsMetadataFile(k) <==> k in Hrefs(t, l))
    ensures Hrefs(t, l) <= MetadataObjects(t, cfg, l, ts).Keys
  {
    hide IsMetadataFile, Href, Compressed, RepomdText, Signature, HasPrefix;
    FixedKeys();
    HrefIs(t.sha256(Compressed(t, PRIMARY, l)), PRIMARY);
    HrefIs(t.sha256(Compressed(t, FILELISTS, l)), FILELISTS);
    HrefIs(t.sha256(Compressed(t, OTHER, l)), OTHER);
  }

  /** Publishing sweeps all old documents away and writes the new ones. */
  lemma PublishIs(t: Tools, cfg: Config, b: Bucket, listing: set<string> -> seq<string>, entries: seq<Entry>, ts: int)
    requires Collisionless(t) && Enumerates(listing)
    requires CanSign(cfg, RepomdText(t, t.sort(entries), ts))
    ensures PublishPlan(t, cfg, b, listing, entries, ts).complete
    ensures Apply(b, PublishPlan(t, cfg, b, listing, entries, ts).steps) ==
            Swept(b) + MetadataObjects(t, cfg, t.sort(entries), ts)
  {
    hide Apply, RepomdText, IsMetadataFile, WritePlan, MetadataObjects, CanSign, Stale, Hrefs, HasPrefix;
    var l := t.sort(entries);
    var objects := MetadataObjects(t, cfg, l, ts);
    WrittenObjects(t, cfg, b, l, ts);
    ObjectsKeys(t, cfg, l, ts);
    var write := WritePlan(t, cfg, l, ts);
    var x := b + objects;
    var keys := listing(Keys(x, "repodata/"));
    var stale := Stale(keys, Hrefs(t, l));
    StaleAre(keys, Hrefs(t, l));
    ApplyDeletes(x, stale);
    ApplyConcat(b, write.steps, Deletes(stale));
    assert x - Elements(stale) == Swept(b) + objects by {
      forall k
        ensures k in Elements(stale) <==>
                k in x && HasPrefix(k, "repodata/") && IsMetadataFile(k) && k !in Hrefs(t, l)
      {
        assert k in keys <==> k in Keys(x, "repodata/");
      }
    }
  }
}
