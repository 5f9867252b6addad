/**
 The object keys of a yum repository: what they look like, and that different packages, and documents of different
 contents or kinds, never share one.
 */
module YumKeys {
  import opened Text
  import opened Paths
  import opened Storage
  import opened Yum

  predicate Word(s: string) {
    s != "" && '/' !in s
  }

  /** The characters that RPM allows in the tags of a package leave these out. */
  predicate GoodHeader(h: Header) {
    SafeHeader(h) && '-' !in h.version && '-' !in h.release && '.' !in h.architecture
  }

  /** What keeps a package below Packages. */
  predicate SafeHeader(h: Header) {
    Word(h.name) && h.name[0] != '.' && Word(h.version) && Word(h.release) && Word(h.architecture)
  }

  // ----- packages

  function PoolParts(h: Header): seq<string>
    requires h.name != ""
  {
    ["Packages", ToLower(h.name[..1]), FileName(h)]
  }

  lemma PoolPartsPlain(h: Header)
    requires SafeHeader(h)
    ensures AllPlain(PoolParts(h))
  {
    var file := FileName(h);
    assert file[0] == h.name[0];
    assert '/' !in file;
    var c := ToLower(h.name[..1]);
    assert |c| == 1 && c[0] == LowerChar(h.name[0]);
    assert h.name[0] in h.name;
    assert c[0] != '/' && c[0] != '.';
    assert Plain(c) && Plain("Packages") && Plain(file);
  }

  /** A package is below Packages whatever its tags, as long as they hold no slash. */
  lemma PoolPathIs(h: Header)
    requires SafeHeader(h)
    ensures PoolPath(h) == Join(PoolParts(h), '/')
    ensures HasPrefix(PoolPath(h), "Packages/")
  {
    hide Join, FileName, ToLower;
    PoolPartsPlain(h);
    JoinPlain(PoolParts(h));
    var rest := PoolParts(h)[1..];
    JoinConcat(["Packages"], rest);
    assert ["Packages"] + rest == PoolParts(h);
    JoinOne("Packages");
  }

  /** Where a package is put: below the first letter of its name, a capital as a small letter. */
  lemma PoolPathText(h: Header)
    requires SafeHeader(h)
    ensures var c := h.name[0];
            PoolPath(h) ==
            "Packages/" + [if 'A' <= c <= 'Z' then c + 32 as char else c] + "/"
            + (h.name + "-" + h.version + "-" + h.release + "." + h.architecture + ".rpm")
  {
    hide Join, PoolPath;
    PoolPathIs(h);
    ThreeJoined("Packages", ToLower(h.name[..1]), FileName(h));
  }

  lemma FileNameInjective(x: Header, y: Header)
    requires GoodHeader(x) && GoodHeader(y) && FileName(x) == FileName(y)
    ensures x.name == y.name && x.version == y.version && x.release == y.release && x.architecture == y.architecture
  {
    var nx, ny := x.name + ['-'] + x.version, y.name + ['-'] + y.version;
    var fx, fy := nx + ['-'] + x.release, ny + ['-'] + y.release;
    var sx, sy := fx + ['.'] + x.architecture, fy + ['.'] + y.architecture;
    assert FileName(x) == sx + ".rpm" && FileName(y) == sy + ".rpm";
    assert sx == FileName(x)[..|sx|] && sy == FileName(y)[..|sy|];
    CutLastInjective(fx, x.architecture, fy, y.architecture, '.');
    CutLastInjective(nx, x.release, ny, y.release, '-');
    CutLastInjective(x.name, x.version, y.name, y.version, '-');
  }

  /** No two packages share a file. */
  lemma PoolPathInjective(x: Header, y: Header)
    requires GoodHeader(x) && GoodHeader(y)
    ensures PoolPath(x) == PoolPath(y) <==>
              x.name == y.name && x.version == y.version && x.release == y.release && x.architecture == y.architecture
  {
    if PoolPath(x) == PoolPath(y) {
      hide PoolPath, Join, FileName, ToLower;
      PoolPathIs(x);
      PoolPathIs(y);
      PoolPartsPlain(x);
      PoolPartsPlain(y);
      var p, q := PoolParts(x), PoolParts(y);
      JoinInjective(p, q);
      assert p[2] == q[2];
      FileNameInjective(x, y);
    }
  }

  // Of the three conditions that GoodHeader adds to SafeHeader none can be spared: of two packages that share a file
  // one keeps to all of them, and the other to all but one.

  /** A dash in the version might as well belong to the name. */
  lemma DashInVersionCollides(h: Header, w: string)
    requires h.name != "" && h.version != ""
    ensures var x := h.(version := h.version + "-" + w); var y := h.(name := h.name + "-" + h.version, version := w);
            && PoolPath(x) == PoolPath(y) && x.name != y.name
            && (GoodHeader(h) && Word(w) && '-' !in w ==> GoodHeader(x.(version := w)) && GoodHeader(y))
  {
    hide PathJoin, ToLower;
    var x, y := h.(version := h.version + "-" + w), h.(name := h.name + "-" + h.version, version := w);
    assert x.name[..1] == y.name[..1];
    assert x.name + "-" + x.version == y.name + "-" + y.version;
  }

  /** A dash in the release might as well belong to the version, and the version to the name. */
  lemma DashInReleaseCollides(h: Header, w: string)
    requires h.name != "" && h.version != ""
    ensures var x := h.(release := h.release + "-" + w);
            var y := h.(name := h.name + "-" + h.version, version := h.release, release := w);
            && PoolPath(x) == PoolPath(y) && x.name != y.name
            && (GoodHeader(h) && Word(w) && '-' !in w ==> GoodHeader(x.(release := w)) && GoodHeader(y))
  {
    hide PathJoin, ToLower;
    var x := h.(release := h.release + "-" + w);
    var y := h.(name := h.name + "-" + h.version, version := h.release, release := w);
    assert x.name[..1] == y.name[..1];
    assert x.name + "-" + x.version + "-" + x.release == y.name + "-" + y.version + "-" + y.release;
  }

  /** A dot in the architecture might as well belong to the release. */
  lemma DotInArchitectureCollides(h: Header, w: string)
    requires h.name != ""
    ensures var x := h.(architecture := h.architecture + "." + w);
            var y := h.(release := h.release + "." + h.architecture, architecture := w);
            && PoolPath(x) == PoolPath(y) && x.release != y.release
            && (GoodHeader(h) && Word(w) && '.' !in w && '-' !in h.architecture ==>
                  GoodHeader(x.(architecture := w)) && GoodHeader(y))
  {
    hide PathJoin, ToLower;
    var x := h.(architecture := h.architecture + "." + w);
    var y := h.(release := h.release + "." + h.architecture, architecture := w);
    var front, back := h.name + "-" + h.version + "-", x.release + "." + x.architecture;
    assert back == y.release + "." + y.architecture;
    assert FileName(x) == front + back + ".rpm" == FileName(y);
  }

  /** Groups are those of one name and architecture, as long as no name holds a NUL. */
  lemma GroupKeyInjective(x: Entry, y: Entry)
    requires '\0' !in x.meta.header.name && '\0' !in y.meta.header.name
    ensures GroupKey(x) == GroupKey(y) <==>
              x.meta.header.name == y.meta.header.name && x.meta.header.architecture == y.meta.header.architecture
  {
    IndexOfCut(x.meta.header.name, x.meta.header.architecture, '\0');
    IndexOfCut(y.meta.header.name, y.meta.header.architecture, '\0');
    var n := |x.meta.header.name|;
    if GroupKey(x) == GroupKey(y) {
      assert GroupKey(x)[..n] == x.meta.header.name && GroupKey(y)[..n] == y.meta.header.name;
      assert GroupKey(x)[n + 1..] == x.meta.header.architecture && GroupKey(y)[n + 1..] == y.meta.header.architecture;
    }
  }

  // ----- metadata documents

  predicate IsKind(kind: string) {
    kind == PRIMARY || kind == FILELISTS || kind == OTHER
  }

  lemma HrefIs(sum: string, kind: string)
    requires '/' !in sum && IsKind(kind)
    ensures Href(sum, kind) == "repodata/" + (sum + MetadataSuffix(kind))
    ensures IsMetadataFile(Href(sum, kind)) && HasPrefix(Href(sum, kind), "repodata/")
  {
    hide Join, PathJoin, MetadataSuffix, HasSuffix;
    var file := sum + MetadataSuffix(kind);
    DocumentPlain(sum, kind);
    JoinPlain(["repodata", file]);
    JoinConcat(["repodata"], [file]);
    JoinOne("repodata");
    JoinOne(file);
    assert ["repodata"] + [file] == ["repodata", file];
    SuffixOf("repodata/" + sum, MetadataSuffix(kind));
    assert "repodata/" + sum + MetadataSuffix(kind) == "repodata/" + file;
  }

  /** What metadata documents are called. */
  lemma HrefText(sum: string, kind: string)
    requires '/' !in sum && IsKind(kind)
    ensures Href(sum, kind) == "repodata/" + sum + "-" + kind + ".xml.gz"
    ensures kind == "primary" || kind == "filelists" || kind == "other"
  {
    hide Href, HasPrefix, HasSuffix;
    HrefIs(sum, kind);
  }

  lemma DocumentPlain(sum: string, kind: string)
    requires '/' !in sum && IsKind(kind)
    ensures var file := sum + MetadataSuffix(kind);
            file == sum + "-" + kind + ".xml.gz" && AllPlain(["repodata", file])
  {
    hide IsKind;
    var suffix := MetadataSuffix(kind);
    KindPlain(kind);
    assert suffix == "-" + kind + ".xml.gz";
    var file := sum + suffix;
    assert file[|file| - 1] == suffix[|suffix| - 1] == 'z';
    assert '/' !in suffix;
    assert Plain("repodata") && Plain(file);
  }

  lemma KindPlain(kind: string)
    requires IsKind(kind)
    ensures '/' !in kind
  {
  }

  lemma SuffixOf(s: string, suffix: string)
    ensures HasSuffix(s + suffix, suffix)
  {
  }

  /** The name of a document gives away its digest and its kind. */
  lemma HrefInjective(s: string, k: string, u: string, l: string)
    requires '/' !in s && '/' !in u && IsKind(k) && IsKind(l)
    requires Href(s, k) == Href(u, l)
    ensures s == u && k == l
  {
    hide Href, IsMetadataFile;
    HrefIs(s, k);
    HrefIs(u, l);
    var x, y := s + MetadataSuffix(k), u + MetadataSuffix(l);
    assert x == Href(s, k)[9..] && y == Href(u, l)[9..];
    assert x[|x| - 8] == k[|k| - 1] && y[|y| - 8] == l[|l| - 1];
    assert k == l;
    assert s == x[..|s|] && u == y[..|u|];
  }

  /** The other keys that publishing writes are no metadata documents. */
  lemma FixedKeys()
    ensures !IsMetadataFile(STATE_KEY) && !IsMetadataFile(REPOMD_KEY) && !IsMetadataFile(SIGNATURE_KEY)
    ensures STATE_KEY != REPOMD_KEY && STATE_KEY != SIGNATURE_KEY && REPOMD_KEY != SIGNATURE_KEY
    ensures HasPrefix(STATE_KEY, "repodata/") && HasPrefix(REPOMD_KEY, "repodata/") &&
            HasPrefix(SIGNATURE_KEY, "repodata/")
  {
    hide IsMetadataFile;
    NotMetadata(STATE_KEY);
    NotMetadata(REPOMD_KEY);
    NotMetadata(SIGNATURE_KEY);
    assert |STATE_KEY| == 28 && |REPOMD_KEY| == 19 && |SIGNATURE_KEY| == 23;
  }

  lemma LastOfSuffix(s: string, suffix: string)
    requires suffix != "" && HasSuffix(s, suffix)
    ensures s != "" && s[|s| - 1] == suffix[|suffix| - 1]
  {
    assert suffix[|suffix| - 1] == s[|s| - |suffix|..][|suffix| - 1];
  }

  lemma NotMetadata(key: string)
    requires key != "" && key[|key| - 1] != 'z'
    ensures !IsMetadataFile(key)
  {
    hide HasSuffix;
    if IsMetadataFile(key) {
      var kind := if HasSuffix(key, MetadataSuffix(PRIMARY)) then PRIMARY
                  else if HasSuffix(key, MetadataSuffix(FILELISTS)) then FILELISTS else OTHER;
      LastOfSuffix(key, MetadataSuffix(kind));
      assert false;
    }
  }

  /** Packages and metadata have no keys in common. */
  lemma PackagesAreNoMetadata(x: string, y: string)
    requires HasPrefix(x, "Packages/") && HasPrefix(y, "repodata/")
    ensures x != y
  {
    assert x[0] == 'P';
    assert y[0] == 'r';
  }
}
