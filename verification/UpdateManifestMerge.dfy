/** Merging the manifests of two platforms into one. */
module UpdateManifestMerge {
  import opened Text
  import opened Sequences
  import opened UpdateManifest

  datatype MergeError =
    | DifferentVersions(primary: string, secondary: string)
    | ConflictingFile(url: string)
    | ConflictingExtra(key: string)

  /** No url stands for two different entries. */
  ghost predicate Consistent(files: seq<File>) {
    forall i, j | 0 <= i < |files| && 0 <= j < |files| && files[i].url == files[j].url :: files[i] == files[j]
  }

  ghost predicate Agree(a: map<string, Scalar>, b: map<string, Scalar>) {
    forall k | k in a && k in b :: a[k] == b[k]
  }

  function LaterDate(a: string, b: string): string {
    if LexLe(b, a) then a else b
  }

  /** `[...filesByUrl.values()]` */
  function Listed(order: seq<string>, filesByUrl: map<string, File>): seq<File>
    requires forall u | u in order :: u in filesByUrl
  {
    seq(|order|, i requires 0 <= i < |order| => filesByUrl[order[i]])
  }

  /** The map of urls after the entries `front`: its urls in insertion order and their entries. */
  ghost predicate Tracks(front: seq<File>, order: seq<string>, filesByUrl: map<string, File>) {
    && (forall f | f in front :: f.url in filesByUrl && filesByUrl[f.url] == f)
    && (forall u | u in filesByUrl :: filesByUrl[u].url == u && filesByUrl[u] in front)
    && (forall u | u in order :: u in filesByUrl)
    && Listed(order, filesByUrl) == Dedup(front)
  }

  lemma TracksNew(front: seq<File>, order: seq<string>, filesByUrl: map<string, File>, file: File)
    requires Tracks(front, order, filesByUrl) && file.url !in filesByUrl
    ensures Tracks(front + [file], order + [file.url], filesByUrl[file.url := file])
  {
    assert (front + [file])[..|front|] == front;
    assert Listed(order + [file.url], filesByUrl[file.url := file]) == Listed(order, filesByUrl) + [file];
  }

  lemma TracksOld(front: seq<File>, order: seq<string>, filesByUrl: map<string, File>, file: File)
    requires Tracks(front, order, filesByUrl) && file.url in filesByUrl && filesByUrl[file.url] == file
    ensures Tracks(front + [file], order, filesByUrl[file.url := file])
  {
    assert (front + [file])[..|front|] == front;
    assert filesByUrl[file.url := file] == filesByUrl;
  }

  lemma TrackedConsistent(front: seq<File>, order: seq<string>, filesByUrl: map<string, File>)
    requires Tracks(front, order, filesByUrl)
    ensures Consistent(front)
  {
    hide Dedup, Listed;
    ConsistentByMembers(front);
  }

  /** `filesByUrl` as the program fills it: a later entry of a known url must be the same entry. */
  method MergeFiles(files: seq<File>) returns (r: Result<seq<File>, MergeError>)
    ensures r.Ok? <==> Consistent(files)
    ensures r.Ok? ==> r.value == Dedup(files)
    ensures r.Err? ==> r.error.ConflictingFile? && exists f, g ::
      f in files && g in files && f.url == g.url == r.error.url && f != g
  {
    hide Dedup, Listed, Consistent;
    var order: seq<string> := [];
    var filesByUrl: map<string, File> := map[];
    NothingTracked();
    for i := 0 to |files|
      invariant Tracks(files[..i], order, filesByUrl)
    {
      var file := files[i];
      assert files[..i + 1] == files[..i] + [file];
      if file.url in filesByUrl && filesByUrl[file.url] != file {
        ConsistentByMembers(files);
        assert filesByUrl[file.url] in files[..i];
        return Err(ConflictingFile(file.url));
      }
      if file.url !in filesByUrl {
        TracksNew(files[..i], order, filesByUrl, file);
        order := order + [file.url];
      } else {
        TracksOld(files[..i], order, filesByUrl, file);
      }
      filesByUrl := filesByUrl[file.url := file];
    }
    assert files[..|files|] == files;
    TrackedConsistent(files, order, filesByUrl);
    r := Ok(Listed(order, filesByUrl));
  }

  lemma NothingTracked()
    ensures Tracks([], [], map[])
  {}

  method MergeExtras(primary: map<string, Scalar>, secondary: map<string, Scalar>)
    returns (r: Result<map<string, Scalar>, MergeError>)
    ensures r.Ok? <==> Agree(primary, secondary)
    ensures r.Ok? ==> r.value == primary + secondary
    ensures r.Err? ==> r.error.ConflictingExtra?
  {
    var merged := primary;
    var pending := secondary.Keys;
    while pending != {}
      invariant pending <= secondary.Keys
      invariant merged == primary + (map k | k in secondary.Keys - pending :: secondary[k])
      invariant forall k | k in primary && k in secondary && k !in pending :: primary[k] == secondary[k]
      decreases pending
    {
      var key :| key in pending;
      var value := secondary[key];
      if key in merged && merged[key] != value {
        assert key in primary && primary[key] != secondary[key];
        return Err(ConflictingExtra(key));
      }
      merged := merged[key := value];
      pending := pending - {key};
    }
    assert (map k | k in secondary.Keys - pending :: secondary[k]) == secondary;
    r := Ok(merged);
  }

  // The merge, as a partial operation on manifests

  ghost predicate Mergeable(a: Manifest, b: Manifest) {
    a.version == b.version && Consistent(a.files + b.files) && Agree(a.extras, b.extras)
  }

  ghost function Merge(a: Manifest, b: Manifest): Option<Manifest> {
    if Mergeable(a, b) then
      Some(Manifest(a.version, LaterDate(a.releaseDate, b.releaseDate), Dedup(a.files + b.files), a.extras + b.extras))
    else None
  }

  /** Succeeds exactly when versions agree and no url or extra key has two different entries. */
  method MergeUpdateManifests(primary: Manifest, secondary: Manifest) returns (r: Result<Manifest, MergeError>)
    ensures r.Ok? <==> Mergeable(primary, secondary)
    ensures r.Ok? ==> Merge(primary, secondary) == Some(r.value)
    ensures r == Err(DifferentVersions(primary.version, secondary.version)) <==> primary.version != secondary.version
  {
    if primary.version != secondary.version {
      return Err(DifferentVersions(primary.version, secondary.version));
    }
    var files := MergeFiles(primary.files + secondary.files);
    if files.Err? {
      return Err(files.error);
    }
    var extras := MergeExtras(primary.extras, secondary.extras);
    if extras.Err? {
      return Err(extras.error);
    }
    r := Ok(Manifest(primary.version,
                     if LexLe(secondary.releaseDate, primary.releaseDate) then primary.releaseDate else secondary.releaseDate,
                     files.value, extras.value));
  }

  // What the merged file list is

  ghost predicate UrlsDiffer(files: seq<File>) {
    forall i, j | 0 <= i < j < |files| :: files[i].url != files[j].url
  }

  /** The entries of `d` appear in `files` for the first time in this order. */
  ghost predicate InFirstOrder(files: seq<File>, d: seq<File>) {
    forall i, j | 0 <= i < j < |d| :: FirstIndex(files, d[i]) < FirstIndex(files, d[j])
  }

  lemma {:induction false} DistinctUrlsDiffer(files: seq<File>)
    requires Consistent(files)
    ensures UrlsDiffer(Dedup(files))
  {
    if files != [] {
      var n := |files| - 1;
      var front, last := files[..n], files[n];
      assert files == front + [last];
      ConsistentPart(front, [last]);
      DistinctUrlsDiffer(front);
      DedupMembers(front);
      var d := Dedup(front);
      if last !in front {
        forall i | 0 <= i < |d| ensures d[i].url != last.url {
          assert d[i] in d && d[i] in front && d[i] in files && last in files;
          ConsistentByMembers(files);
        }
      }
    }
  }

  // Algebra

  lemma ConsistentByMembers(files: seq<File>)
    ensures Consistent(files) <==> forall f, g | f in files && g in files && f.url == g.url :: f == g
  {}

  lemma ConsistentPart(a: seq<File>, b: seq<File>)
    ensures Consistent(a + b) ==> Consistent(a) && Consistent(b)
  {
    ConsistentByMembers(a + b);
    ConsistentByMembers(a);
    ConsistentByMembers(b);
  }

  lemma SameMembersConsistent(a: seq<File>, b: seq<File>)
    requires forall f :: f in a <==> f in b
    ensures Consistent(a) <==> Consistent(b)
  {
    ConsistentByMembers(a);
    ConsistentByMembers(b);
  }

  lemma LaterAssociative(a: string, b: string, c: string)
    ensures LaterDate(LaterDate(a, b), c) == LaterDate(a, LaterDate(b, c))
    ensures LaterDate(a, b) == LaterDate(b, a)
    ensures LexLe(a, LaterDate(a, b)) && LexLe(b, LaterDate(a, b)) && LaterDate(a, b) in {a, b}
  {
    hide LexLe;
    LexTotal(a, b);
    LexTotal(b, c);
    LexTotal(a, c);
    LexTotal(a, a);
    LexTotal(b, b);
    if LexLe(a, b) && LexLe(b, c) { LexTransitive(a, b, c); }
    if LexLe(c, b) && LexLe(b, a) { LexTransitive(c, b, a); }
  }

  ghost function MergeIf(a: Option<Manifest>, b: Option<Manifest>): Option<Manifest> {
    if a.Some? && b.Some? then Merge(a.value, b.value) else None
  }

  lemma AgreeAssociative(a: map<string, Scalar>, b: map<string, Scalar>, c: map<string, Scalar>)
    ensures (Agree(a, b) && Agree(a + b, c)) <==> (Agree(b, c) && Agree(a, b + c))
    ensures (a + b) + c == a + (b + c)
  {
    if Agree(a, b) && Agree(a + b, c) {
      forall k | k in b && k in c ensures b[k] == c[k] { assert (a + b)[k] == b[k]; }
      forall k | k in a && k in b + c ensures a[k] == (b + c)[k] {
        if k in c { assert (a + b)[k] == c[k]; }
      }
    }
    if Agree(b, c) && Agree(a, b + c) {
      forall k | k in a && k in b ensures a[k] == b[k] { assert k in b + c; }
      forall k | k in a + b && k in c ensures (a + b)[k] == c[k] {
        if k in a { assert a[k] == (b + c)[k]; }
      }
    }
  }

  lemma FilesAssociative(a: seq<File>, b: seq<File>, c: seq<File>)
    ensures (Consistent(a + b) && Consistent(Dedup(a + b) + c)) <==> (Consistent(b + c) && Consistent(a + Dedup(b + c)))
    ensures Dedup(Dedup(a + b) + c) == Dedup(a + Dedup(b + c))
  {
    hide Dedup, Consistent;
    DedupMembers(a + b);
    DedupMembers(b + c);
    assert a + b + c == a + (b + c);
    SameMembersConsistent(Dedup(a + b) + c, a + b + c);
    SameMembersConsistent(a + Dedup(b + c), a + b + c);
    ConsistentPart(a + b, c);
    ConsistentPart(a, b + c);
    DedupAbsorbsLeft(a + b, c);
    DedupAbsorbsRight(a, b + c);
  }

  /** Merging is associative, failure included. */
  lemma MergeAssociative(a: Manifest, b: Manifest, c: Manifest)
    ensures MergeIf(Merge(a, b), Some(c)) == MergeIf(Some(a), Merge(b, c))
  {
    hide Dedup, Consistent, Agree, LaterDate;
    FilesAssociative(a.files, b.files, c.files);
    AgreeAssociative(a.extras, b.extras, c.extras);
    LaterAssociative(a.releaseDate, b.releaseDate, c.releaseDate);
  }

  /** Merging in the other order gives the same manifest up to the order of its files. */
  lemma MergeCommutative(a: Manifest, b: Manifest)
    ensures Merge(a, b).Some? <==> Merge(b, a).Some?
    ensures Merge(a, b).Some? ==>
      var m, n := Merge(a, b).value, Merge(b, a).value;
      m.version == n.version && m.releaseDate == n.releaseDate && m.extras == n.extras
      && multiset(m.files) == multiset(n.files)
  {
    hide Dedup, LaterDate;
    var ab, ba := a.files + b.files, b.files + a.files;
    SameMembersConsistent(ab, ba);
    LaterAssociative(a.releaseDate, b.releaseDate, b.releaseDate);
    if Mergeable(a, b) {
      assert a.extras + b.extras == b.extras + a.extras;
      DistinctUrlsDiffer(ab);
      DistinctUrlsDiffer(ba);
      DedupMembers(ab);
      DedupMembers(ba);
      SameSetSameMultiset(Dedup(ab), Dedup(ba));
    }
  }

  lemma SameSetSameMultiset(s: seq<File>, t: seq<File>)
    requires UrlsDiffer(s) && UrlsDiffer(t)
    requires forall f :: f in s <==> f in t
    ensures multiset(s) == multiset(t)
  {
    forall f ensures multiset(s)[f] == multiset(t)[f] {
      OnceEach(s, f);
      OnceEach(t, f);
    }
  }

  lemma {:induction false} OnceEach(s: seq<File>, f: File)
    requires UrlsDiffer(s)
    ensures multiset(s)[f] == if f in s then 1 else 0
  {
    if s != [] {
      var n := |s| - 1;
      OnceEach(s[..n], f);
      assert s == s[..n] + [s[n]];
      assert multiset(s)[f] == multiset(s[..n])[f] + multiset([s[n]])[f];
    }
  }

  /** The merged manifest holds every file of both, each url once in order of first appearance,
      every extra of both, and the later date. */
  lemma MergedContents(a: Manifest, b: Manifest)
    requires Merge(a, b).Some?
    ensures var m := Merge(a, b).value;
      && (forall f :: f in m.files <==> f in a.files || f in b.files)
      && UrlsDiffer(m.files) && InFirstOrder(a.files + b.files, m.files)
      && (forall k | k in a.extras :: k in m.extras && m.extras[k] == a.extras[k])
      && (forall k | k in b.extras :: k in m.extras && m.extras[k] == b.extras[k])
      && LexLe(a.releaseDate, m.releaseDate) && LexLe(b.releaseDate, m.releaseDate)
      && m.releaseDate in {a.releaseDate, b.releaseDate}
  {
    hide Dedup, LaterDate, LexLe, FirstIndex;
    DedupMembers(a.files + b.files);
    DistinctUrlsDiffer(a.files + b.files);
    DedupKeepsOrder(a.files + b.files);
    LaterAssociative(a.releaseDate, b.releaseDate, b.releaseDate);
  }
}
