/** One hash for a directory: every file is hashed together with its relative path, and the sorted
    entries `path:hash` are hashed once more, joined without a separator. */
module BundleHash {
  import opened Text

  /** Relative paths and contents. */
  type Directory = map<string, string>

  datatype File = File(path: string, content: string)

  /** `sha` stands for the hash in hexadecimal; nothing is assumed of it unless stated. */
  type Hash = string -> string

  /** A walk visits every file of the directory once, in any order. */
  ghost predicate Walks(walk: seq<File>, dir: Directory) {
    && (forall i | 0 <= i < |walk| :: walk[i].path in dir && dir[walk[i].path] == walk[i].content)
    && (forall i, j | 0 <= i < j < |walk| :: walk[i].path != walk[j].path)
    && (forall p | p in dir :: File(p, dir[p]) in walk)
  }

  function Entry(sha: Hash, f: File): string {
    f.path + (":" + sha(f.path + f.content))
  }

  function Entries(sha: Hash, walk: seq<File>): seq<string> {
    if walk == [] then [] else [Entry(sha, walk[0])] + Entries(sha, walk[1..])
  }

  function Joined(entries: seq<string>): string {
    if entries == [] then "" else entries[0] + Joined(entries[1..])
  }

  /* ---- sorting ---- */

  predicate AtMost(a: string, b: string) {
    a == "" || (b != "" && (a[0] < b[0] || (a[0] == b[0] && AtMost(a[1..], b[1..]))))
  }

  lemma {:induction false} AtMostAntisymmetric(a: string, b: string)
    requires AtMost(a, b) && AtMost(b, a)
    ensures a == b
    decreases |a|
  {
    if a != "" {
      AtMostAntisymmetric(a[1..], b[1..]);
      assert a == [a[0]] + a[1..] && b == [b[0]] + b[1..];
    }
  }

  lemma {:induction false} AtMostTransitive(a: string, b: string, c: string)
    requires AtMost(a, b) && AtMost(b, c)
    ensures AtMost(a, c)
    decreases |a|
  {
    if a != "" && a[0] == b[0] == c[0] { AtMostTransitive(a[1..], b[1..], c[1..]); }
  }

  lemma {:induction false} AtMostTotal(a: string, b: string)
    ensures AtMost(a, b) || AtMost(b, a)
    decreases |a|
  {
    if a != "" && b != "" { AtMostTotal(a[1..], b[1..]); }
  }

  lemma {:induction false} AtMostExtension(a: string, b: string)
    ensures AtMost(a, a + b)
    decreases |a|
  {
    if a != "" {
      AtMostExtension(a[1..], b);
      assert (a + b)[1..] == a[1..] + b;
    }
  }

  /** The first difference. */
  predicate LessAt(a: string, b: string, i: nat) {
    i < |a| && i < |b| && a[..i] == b[..i] && a[i] < b[i]
  }

  lemma LessAtNext(a: string, b: string, i: nat)
    requires a != "" && b != ""
    ensures LessAt(a, b, i + 1) <==> a[0] == b[0] && LessAt(a[1..], b[1..], i)
  {
    if i + 1 < |a| && i + 1 < |b| {
      assert a[..i + 1] == [a[0]] + a[1..][..i] && b[..i + 1] == [b[0]] + b[1..][..i];
      if a[..i + 1] == b[..i + 1] {
        assert a[..i + 1][0] == a[0] && b[..i + 1][0] == b[0];
        assert a[1..][..i] == a[..i + 1][1..] && b[1..][..i] == b[..i + 1][1..];
      }
    }
  }

  lemma PrefixNext(a: string, b: string)
    requires a != "" && b != ""
    ensures a <= b <==> a[0] == b[0] && a[1..] <= b[1..]
  {
    assert a == [a[0]] + a[1..] && b == [b[0]] + b[1..];
  }

  /** The order is that of bytes: a beginning comes first, else the first difference decides. */
  lemma {:induction false} AtMostExactly(a: string, b: string)
    ensures AtMost(a, b) <==> a <= b || exists i: nat :: LessAt(a, b, i)
    decreases |a|
  {
    if a != "" && b != "" {
      PrefixNext(a, b);
      AtMostExactly(a[1..], b[1..]);
      forall i: nat
        ensures LessAt(a, b, i) <==> if i == 0 then a[0] < b[0] else a[0] == b[0] && LessAt(a[1..], b[1..], i - 1)
      {
        if i > 0 { LessAtNext(a, b, i - 1); }
      }
      if i: nat :| LessAt(a[1..], b[1..], i) { LessAtNext(a, b, i); }
      assert LessAt(a, b, 0) <==> a[0] < b[0];
    }
  }

  lemma MultisetCons<T>(s: seq<T>)
    requires s != []
    ensures multiset(s) == multiset{s[0]} + multiset(s[1..])
  {
    assert s == [s[0]] + s[1..];
  }

  predicate Sorted(s: seq<string>) {
    |s| > 1 ==> AtMost(s[0], s[1]) && Sorted(s[1..])
  }

  function Insert(x: string, s: seq<string>): seq<string> {
    if s == [] || AtMost(x, s[0]) then [x] + s else [s[0]] + Insert(x, s[1..])
  }

  /** `sort.Strings`: whatever its algorithm, the result is the only sorted arrangement. */
  function Sort(s: seq<string>): seq<string> {
    if s == [] then [] else Insert(s[0], Sort(s[1..]))
  }

  lemma {:induction false} InsertSorts(x: string, s: seq<string>)
    requires Sorted(s)
    ensures Sorted(Insert(x, s)) && multiset(Insert(x, s)) == multiset{x} + multiset(s)
    ensures Insert(x, s)[0] == x || (s != [] && Insert(x, s)[0] == s[0])
    decreases |s|
  {
    if s != [] && !AtMost(x, s[0]) {
      AtMostTotal(x, s[0]);
      InsertSorts(x, s[1..]);
      var rest := Insert(x, s[1..]);
      assert ([s[0]] + rest)[1..] == rest;
      MultisetCons(s);
    } else {
      assert ([x] + s)[1..] == s;
    }
  }

  lemma {:induction false} SortSorts(s: seq<string>)
    ensures Sorted(Sort(s)) && multiset(Sort(s)) == multiset(s)
    decreases |s|
  {
    if s != [] {
      SortSorts(s[1..]);
      InsertSorts(s[0], Sort(s[1..]));
      MultisetCons(s);
    }
  }

  lemma {:induction false} HeadIsLeast(s: seq<string>, x: string)
    requires Sorted(s) && x in s
    ensures AtMost(s[0], x)
    decreases |s|
  {
    if s[0] != x {
      assert s == [s[0]] + s[1..];
      HeadIsLeast(s[1..], x);
      AtMostTransitive(s[0], s[1], x);
    } else {
      AtMostTotal(x, x);
    }
  }

  lemma SameTails(a: seq<string>, b: seq<string>)
    requires a != [] && b != [] && a[0] == b[0] && multiset(a) == multiset(b)
    ensures multiset(a[1..]) == multiset(b[1..])
  {
    MultisetCons(a);
    MultisetCons(b);
    assert multiset(a[1..]) == multiset(a) - multiset{a[0]};
    assert multiset(b[1..]) == multiset(b) - multiset{a[0]};
  }

  lemma {:induction false} SortedUnique(a: seq<string>, b: seq<string>)
    requires Sorted(a) && Sorted(b) && multiset(a) == multiset(b)
    ensures a == b
    decreases |a|
  {
    if a == [] || b == [] {
      assert |multiset(a)| == |multiset(b)|;
    } else {
      assert a[0] in multiset(b) && b[0] in multiset(a);
      HeadIsLeast(a, b[0]);
      HeadIsLeast(b, a[0]);
      AtMostAntisymmetric(a[0], b[0]);
      SameTails(a, b);
      SortedUnique(a[1..], b[1..]);
      assert a == [a[0]] + a[1..] && b == [b[0]] + b[1..];
    }
  }

  /* ---- the hash of a walk ---- */

  function BundleText(sha: Hash, walk: seq<File>): string {
    Joined(Sort(Entries(sha, walk)))
  }

  function BundleDigest(sha: Hash, walk: seq<File>): string {
    sha(BundleText(sha, walk))
  }

  /** One line per file: its path, a colon, and the hash of path and content together. */
  function Lines(sha: Hash, walk: seq<File>): seq<string> {
    seq(|walk|, i requires 0 <= i < |walk| => walk[i].path + ":" + sha(walk[i].path + walk[i].content))
  }

  lemma {:induction false} EntriesAreLines(sha: Hash, walk: seq<File>)
    ensures Entries(sha, walk) == Lines(sha, walk)
    decreases |walk|
  {
    if walk != [] {
      EntriesAreLines(sha, walk[1..]);
      Assoc(walk[0].path, ":", sha(walk[0].path + walk[0].content));
      assert Lines(sha, walk) == [Lines(sha, walk)[0]] + Lines(sha, walk[1..]);
    }
  }

  /** However the lines are put in order, the digest is the hash of the ordered lines run together. */
  lemma DigestOfOrderedLines(sha: Hash, walk: seq<File>, ordered: seq<string>)
    requires Sorted(ordered) && multiset(ordered) == multiset(Lines(sha, walk))
    ensures BundleDigest(sha, walk) == sha(Joined(ordered))
  {
    EntriesAreLines(sha, walk);
    SortSorts(Entries(sha, walk));
    SortedUnique(Sort(Entries(sha, walk)), ordered);
  }

  method HashDirectoryContents(sha: Hash, walk: seq<File>) returns (digest: string)
    ensures digest == BundleDigest(sha, walk)
  {
    var fileHashes := [];
    assert walk[0..] == walk;
    for i := 0 to |walk|
      invariant fileHashes + Entries(sha, walk[i..]) == Entries(sha, walk)
    {
      assert walk[i..][1..] == walk[i + 1..];
      var relPath, content := walk[i].path, walk[i].content;
      var fileHash := sha(relPath + content);
      Assoc(fileHashes, [relPath + (":" + fileHash)], Entries(sha, walk[i + 1..]));
      fileHashes := fileHashes + [relPath + (":" + fileHash)];
    }
    assert fileHashes == Entries(sha, walk);
    fileHashes := Sort(fileHashes);
    var combined := "";
    assert fileHashes[0..] == fileHashes;
    for i := 0 to |fileHashes|
      invariant combined + Joined(fileHashes[i..]) == Joined(fileHashes)
    {
      assert fileHashes[i..][1..] == fileHashes[i + 1..];
      Assoc(combined, fileHashes[i], Joined(fileHashes[i + 1..]));
      combined := combined + fileHashes[i];
    }
    assert combined == Joined(fileHashes);
    digest := sha(combined);
  }

  function Without<T>(s: seq<T>, k: nat): seq<T>
    requires k < |s|
  {
    s[..k] + s[k + 1..]
  }

  lemma MiddleOut<T>(a: seq<T>, x: T, b: seq<T>)
    ensures multiset(a + ([x] + b)) == multiset{x} + multiset(a + b)
  {
  }

  lemma WithoutMultiset<T>(s: seq<T>, k: nat)
    requires k < |s|
    ensures multiset(s) == multiset{s[k]} + multiset(Without(s, k))
  {
    assert s == s[..k] + ([s[k]] + s[k + 1..]);
    MiddleOut(s[..k], s[k], s[k + 1..]);
  }

  lemma {:induction false} EntriesAppend(sha: Hash, a: seq<File>, b: seq<File>)
    ensures Entries(sha, a + b) == Entries(sha, a) + Entries(sha, b)
    decreases |a|
  {
    if a == [] {
      assert a + b == b;
    } else {
      assert (a + b)[1..] == a[1..] + b;
      EntriesAppend(sha, a[1..], b);
      Assoc([Entry(sha, a[0])], Entries(sha, a[1..]), Entries(sha, b));
    }
  }

  lemma EntriesWithout(sha: Hash, walk: seq<File>, k: nat)
    requires k < |walk|
    ensures multiset(Entries(sha, walk)) == multiset{Entry(sha, walk[k])} + multiset(Entries(sha, Without(walk, k)))
  {
    var a, x, b := walk[..k], walk[k], walk[k + 1..];
    assert walk == a + ([x] + b) && ([x] + b)[1..] == b;
    EntriesAppend(sha, a, [x] + b);
    EntriesAppend(sha, a, b);
    MiddleOut(Entries(sha, a), Entry(sha, x), Entries(sha, b));
  }

  lemma {:induction false} EntriesOfRearranged(sha: Hash, a: seq<File>, b: seq<File>)
    requires multiset(a) == multiset(b)
    ensures multiset(Entries(sha, a)) == multiset(Entries(sha, b))
    decreases |a|
  {
    if a == [] || b == [] {
      assert |multiset(a)| == |multiset(b)|;
    } else {
      assert a[0] in multiset(b);
      var k :| 0 <= k < |b| && b[k] == a[0];
      MultisetCons(a);
      WithoutMultiset(b, k);
      assert multiset(a[1..]) == multiset(a) - multiset{a[0]} == multiset(Without(b, k));
      EntriesOfRearranged(sha, a[1..], Without(b, k));
      EntriesWithout(sha, b, k);
    }
  }

  lemma OnlyOnce(walk: seq<File>, k: nat)
    requires k < |walk| && forall i | 0 <= i < |walk| && i != k :: walk[i] != walk[k]
    ensures multiset(walk)[walk[k]] == 1
  {
    WithoutMultiset(walk, k);
    assert walk[k] !in Without(walk, k);
  }

  lemma WalkMultiset(walk: seq<File>, dir: Directory)
    requires Walks(walk, dir)
    ensures forall f :: multiset(walk)[f] == if f.path in dir && dir[f.path] == f.content then 1 else 0
  {
    forall f
      ensures multiset(walk)[f] == if f.path in dir && dir[f.path] == f.content then 1 else 0
    {
      if f in walk {
        var k :| 0 <= k < |walk| && walk[k] == f;
        OnlyOnce(walk, k);
      }
    }
  }

  /** The hash does not depend on the order in which the files are visited. */
  lemma WalkOrderIrrelevant(sha: Hash, walk: seq<File>, other: seq<File>, dir: Directory)
    requires Walks(walk, dir) && Walks(other, dir)
    ensures BundleText(sha, walk) == BundleText(sha, other)
  {
    WalkMultiset(walk, dir);
    WalkMultiset(other, dir);
    assert multiset(walk) == multiset(other);
    EntriesOfRearranged(sha, walk, other);
    SortSorts(Entries(sha, walk));
    SortSorts(Entries(sha, other));
    SortedUnique(Sort(Entries(sha, walk)), Sort(Entries(sha, other)));
  }

  /* ---- reading the entries back ---- */

  predicate HexDigit(c: char) {
    '0' <= c <= '9' || 'a' <= c <= 'f'
  }

  predicate Hex(s: string) {
    |s| == 64 && forall c | c in s :: HexDigit(c)
  }

  /** All hashes have the form of a SHA-256 in hexadecimal. */
  ghost predicate HexHash(sha: Hash) {
    forall s :: Hex(sha(s))
  }

  /** Here the text reads like the end of an entry. */
  predicate MarkAt(s: string, i: nat) {
    i + 65 <= |s| && s[i] == ':' && Hex(s[i + 1..i + 65])
  }

  /** A path that nowhere reads like the end of an entry. */
  predicate Clear(path: string) {
    forall i | 0 <= i < |path| :: !MarkAt(path, i)
  }

  predicate ClearPaths(dir: Directory) {
    forall p | p in dir :: Clear(p)
  }

  /** The strings one run hashes. */
  function Hashed(sha: Hash, walk: seq<File>): set<string> {
    {BundleText(sha, walk)} + set f | f in walk :: f.path + f.content
  }

  predicate NoCollision(sha: Hash, strings: set<string>) {
    forall s, t | s in strings && t in strings :: sha(s) == sha(t) ==> s == t
  }

  /** The only mark is the last possible one. */
  predicate IsEntry(e: string) {
    exists k | 0 <= k < |e| :: |e| == k + 65 && MarkAt(e, k) && forall i | 0 <= i < k :: !MarkAt(e, i)
  }

  lemma NoMark(s: string, i: nat, j: nat)
    requires i < j < i + 65 && j < |s| && !HexDigit(s[j])
    ensures !MarkAt(s, i)
  {
    if i + 65 <= |s| { assert s[i + 1..i + 65][j - i - 1] == s[j]; }
  }

  /** A mark that began in the path and ended behind it would have the entry's own ":" for a digit. */
  lemma ClearPathEntry(sha: Hash, f: File)
    requires HexHash(sha) && Clear(f.path)
    ensures IsEntry(Entry(sha, f))
  {
    var e, k := Entry(sha, f), |f.path|;
    assert e[k + 1..k + 65] == sha(f.path + f.content);
    assert MarkAt(e, k);
    forall i | 0 <= i < k
      ensures !MarkAt(e, i)
    {
      if i + 65 <= k {
        assert e[i + 1..i + 65] == f.path[i + 1..i + 65];
        assert !MarkAt(f.path, i);
      } else {
        NoMark(e, i, k);
      }
    }
  }

  lemma {:induction false} EntriesAreEntries(sha: Hash, walk: seq<File>)
    requires HexHash(sha) && forall f | f in walk :: Clear(f.path)
    ensures forall e | e in Entries(sha, walk) :: IsEntry(e)
    decreases |walk|
  {
    if walk != [] {
      EntriesAreEntries(sha, walk[1..]);
      ClearPathEntry(sha, walk[0]);
    }
  }

  /** Entries can be told apart although nothing separates them. */
  lemma {:induction false} JoinedDecodes(a: seq<string>, b: seq<string>)
    requires forall e | e in a :: IsEntry(e)
    requires forall e | e in b :: IsEntry(e)
    requires Joined(a) == Joined(b)
    ensures a == b
    decreases |a|
  {
    assert a != [] ==> a[0] in a && IsEntry(a[0]);
    assert b != [] ==> b[0] in b && IsEntry(b[0]);
    if a != [] && b != [] {
      FirstEntry(a[0], Joined(a[1..]), b[0], Joined(b[1..]));
      JoinedDecodes(a[1..], b[1..]);
      assert a == [a[0]] + a[1..] && b == [b[0]] + b[1..];
    }
  }

  lemma MarkLeft(a: string, b: string, i: nat)
    requires i + 65 <= |a|
    ensures MarkAt(a + b, i) <==> MarkAt(a, i)
  {
    assert (a + b)[i + 1..i + 65] == a[i + 1..i + 65];
  }

  lemma FirstEntry(e: string, rest: string, e': string, rest': string)
    requires IsEntry(e) && IsEntry(e') && e + rest == e' + rest'
    ensures e == e' && rest == rest'
  {
    var k :| 0 <= k < |e| && |e| == k + 65 && MarkAt(e, k) && forall i | 0 <= i < k :: !MarkAt(e, i);
    var k' :| 0 <= k' < |e'| && |e'| == k' + 65 && MarkAt(e', k') && forall i | 0 <= i < k' :: !MarkAt(e', i);
    MarkLeft(e, rest, k);
    MarkLeft(e', rest', k');
    if k < k' {
      MarkLeft(e', rest', k);
    } else if k' < k {
      MarkLeft(e, rest, k');
    }
    var t := e + rest;
    assert e == t[..|e|] && e' == t[..|e'|];
    assert rest == t[|e|..] && rest' == t[|e'|..];
  }

  lemma {:induction false} EntryIn(sha: Hash, walk: seq<File>, f: File)
    requires f in walk
    ensures Entry(sha, f) in Entries(sha, walk)
    decreases |walk|
  {
    if walk[0] != f { EntryIn(sha, walk[1..], f); }
  }

  lemma {:induction false} EntryFrom(sha: Hash, walk: seq<File>, e: string)
    requires e in Entries(sha, walk)
    ensures exists f :: f in walk && Entry(sha, f) == e
    decreases |walk|
  {
    if Entry(sha, walk[0]) == e {
      assert walk[0] in walk;
    } else {
      EntryFrom(sha, walk[1..], e);
      var f :| f in walk[1..] && Entry(sha, f) == e;
      assert f in walk;
    }
  }

  lemma EntrySplit(sha: Hash, f: File, g: File)
    requires HexHash(sha) && Entry(sha, f) == Entry(sha, g)
    ensures f.path == g.path && sha(f.path + f.content) == sha(g.path + g.content)
  {
    var e, n := Entry(sha, f), |f.path|;
    assert |sha(f.path + f.content)| == 64 && |sha(g.path + g.content)| == 64;
    assert f.path == e[..n] && g.path == e[..n];
    assert sha(f.path + f.content) == e[n + 1..] && sha(g.path + g.content) == e[n + 1..];
  }

  lemma SamePrefix(p: string, a: string, b: string)
    requires p + a == p + b
    ensures a == b
  {
    assert (p + a)[|p|..] == a && (p + b)[|p|..] == b;
  }

  lemma HashedHas(sha: Hash, walk: seq<File>, f: File)
    requires f in walk
    ensures f.path + f.content in Hashed(sha, walk)
  {
  }

  lemma SameFile(sha: Hash, f: File, g: File, strings: set<string>)
    requires HexHash(sha) && Entry(sha, f) == Entry(sha, g)
    requires NoCollision(sha, strings) && f.path + f.content in strings && g.path + g.content in strings
    ensures f == g
  {
    EntrySplit(sha, f, g);
    SamePrefix(f.path, f.content, g.content);
  }

  /** A file found by one walk is found by the other, with the same content. */
  lemma FileShared(sha: Hash, walk: seq<File>, other: seq<File>, dir: Directory, dir': Directory, p: string)
    requires Walks(walk, dir) && Walks(other, dir') && HexHash(sha) && p in dir
    requires NoCollision(sha, Hashed(sha, walk) + Hashed(sha, other))
    requires forall e | e in Entries(sha, walk) :: e in Entries(sha, other)
    ensures p in dir' && dir'[p] == dir[p]
  {
    var f := File(p, dir[p]);
    EntryIn(sha, walk, f);
    EntryFrom(sha, other, Entry(sha, f));
    var g :| g in other && Entry(sha, g) == Entry(sha, f);
    HashedHas(sha, walk, f);
    HashedHas(sha, other, g);
    assert g.path in dir' && dir'[g.path] == g.content;
    SameFile(sha, f, g, Hashed(sha, walk) + Hashed(sha, other));
  }

  /** Two directories in whose paths no ":" is followed by 64 hexadecimal digits have the same hash
      exactly when they have the same files, unless two strings hashed in the two runs collide. */
  lemma DigestIsFaithful(sha: Hash, walk: seq<File>, other: seq<File>, dir: Directory, dir': Directory)
    requires Walks(walk, dir) && Walks(other, dir') && ClearPaths(dir) && ClearPaths(dir')
    requires HexHash(sha) && NoCollision(sha, Hashed(sha, walk) + Hashed(sha, other))
    ensures BundleDigest(sha, walk) == BundleDigest(sha, other) <==> dir == dir'
  {
    if dir == dir' {
      WalkOrderIrrelevant(sha, walk, other, dir);
    }
    if BundleDigest(sha, walk) == BundleDigest(sha, other) {
      assert BundleText(sha, walk) in Hashed(sha, walk) && BundleText(sha, other) in Hashed(sha, other);
      SameEntries(sha, walk, other, dir, dir');
      forall p | p in dir || p in dir'
        ensures p in dir && p in dir' && dir[p] == dir'[p]
      {
        if p in dir { FileShared(sha, walk, other, dir, dir', p); }
        if p in dir' { FileShared(sha, other, walk, dir', dir, p); }
      }
    }
  }

  lemma SameEntries(sha: Hash, walk: seq<File>, other: seq<File>, dir: Directory, dir': Directory)
    requires Walks(walk, dir) && Walks(other, dir') && ClearPaths(dir) && ClearPaths(dir') && HexHash(sha)
    requires BundleText(sha, walk) == BundleText(sha, other)
    ensures forall e :: e in Entries(sha, walk) <==> e in Entries(sha, other)
  {
    var a, b := Entries(sha, walk), Entries(sha, other);
    SortSorts(a);
    SortSorts(b);
    EntriesAreEntries(sha, walk);
    EntriesAreEntries(sha, other);
    SameElements(a, Sort(a));
    SameElements(b, Sort(b));
    JoinedDecodes(Sort(a), Sort(b));
  }

  lemma SameElements(a: seq<string>, b: seq<string>)
    requires multiset(a) == multiset(b)
    ensures forall e :: e in a <==> e in b
  {
    forall e
      ensures e in a <==> e in b
    {
      assert e in multiset(a) <==> e in multiset(b);
    }
  }

  /** With ":" in a path the entries can be misread: whatever the hash function, these two
      directories, one of two files and one of a single file, hash the same text. */
  lemma ColonsBreakFaithfulness(sha: Hash, p: string, first: string, last: string)
    ensures var e := p + (":" + sha(p + first));
            var dir: Directory := map[p := first, e := e + last];
            var dir': Directory := map[e + e := last];
            var walk := [File(p, first), File(e, e + last)];
            var other := [File(e + e, last)];
      && Walks(walk, dir) && Walks(other, dir') && dir != dir'
      && BundleText(sha, walk) == BundleText(sha, other) == e + (e + (":" + sha(e + e + last)))
  {
    var e := p + (":" + sha(p + first));
    var walk := [File(p, first), File(e, e + last)];
    var other := [File(e + e, last)];
    var tail := ":" + sha(e + e + last);
    assert Entry(sha, walk[0]) == e;
    assert Entry(sha, walk[1]) == e + tail by { assert e + (e + last) == e + e + last; }
    EntriesOfTwo(sha, walk[0], walk[1]);
    AtMostExtension(e, tail);
    SortOfTwo(e, e + tail);
    Assoc(e, e, tail);
    SortOfOne(e + e + tail);
    assert Entries(sha, other) == [e + e + tail] by { assert Entries(sha, other[1..]) == []; }
    assert |e| > |p|;
    assert Walks(walk, map[p := first, e := e + last]);
    assert e in map[p := first, e := e + last];
  }

  lemma EntriesOfTwo(sha: Hash, f: File, g: File)
    ensures Entries(sha, [f, g]) == [Entry(sha, f), Entry(sha, g)]
  {
    assert [f, g][1..] == [g] && [g][1..] == [];
    assert Entries(sha, [g]) == [Entry(sha, g)] + [];
  }

  lemma SortOfOne(a: string)
    ensures Sort([a]) == [a] && Joined([a]) == a
  {
    assert [a][1..] == [] && a + "" == a;
  }

  lemma SortOfTwo(a: string, b: string)
    requires AtMost(a, b)
    ensures Sort([a, b]) == [a, b] && Joined([a, b]) == a + b
  {
    assert [a, b][1..] == [b];
    SortOfOne(b);
  }

  /* ---- which paths may be used ---- */

  predicate Over(dir: Directory, allowed: set<char>) {
    forall p, c | p in dir && c in p :: c in allowed
  }

  /** Equal hashes mean equal directories, for every hash function and all directories whose paths
      use only the given characters. */
  ghost predicate TellsApart(allowed: set<char>) {
    forall sha: Hash, walk, other, dir, dir' ::
      Walks(walk, dir) && Walks(other, dir') && Over(dir, allowed) && Over(dir', allowed)
      && HexHash(sha) && NoCollision(sha, Hashed(sha, walk) + Hashed(sha, other)) ==>
        (BundleDigest(sha, walk) == BundleDigest(sha, other) <==> dir == dir')
  }

  function Repeated(c: char, n: nat): (s: string)
    ensures |s| == n && forall i | 0 <= i < n :: s[i] == c
  {
    seq(n, i => c)
  }

  /** Two digits different from `d` and from each other. */
  function Second(d: char): char { if d == '1' then '0' else '1' }
  function Third(d: char): char { if d == '2' then '0' else '2' }

  /** A hash without collision on the three lengths of text that the example below hashes. */
  function ByLength(d: char): Hash {
    s => Repeated(if |s| == 1 then d else if |s| == 132 then Second(d) else Third(d), 64)
  }

  function Colliding(d: char): string {
    [d] + (":" + ByLength(d)([d] + ""))
  }

  /** The strings hashed for the example are the one-digit path and two longer ones. */
  lemma ThreeStrings(sha: Hash, d: char, e: string, s: string)
    requires sha == ByLength(d) && e == Colliding(d)
    requires s in Hashed(sha, [File([d], ""), File(e, e + "")]) + Hashed(sha, [File(e + e, "")])
    ensures sha(s)[0] == d ==> s == [d]
    ensures sha(s)[0] == Second(d) ==> s == e + e
    ensures sha(s)[0] == Third(d) ==> s == e + (e + (":" + sha(e + e + "")))
    ensures sha(s)[0] in [d, Second(d), Third(d)]
  {
    ColonsBreakFaithfulness(sha, [d], "", "");
    assert [d] + "" == [d] && e + (e + "") == e + e && e + e + "" == e + e;
    assert s in [[d], e + e, e + (e + (":" + sha(e + e + "")))];
  }

  lemma ExampleWithoutCollision(sha: Hash, d: char, e: string)
    requires sha == ByLength(d) && e == Colliding(d)
    ensures NoCollision(sha, Hashed(sha, [File([d], ""), File(e, e + "")]) + Hashed(sha, [File(e + e, "")]))
  {
    var strings := Hashed(sha, [File([d], ""), File(e, e + "")]) + Hashed(sha, [File(e + e, "")]);
    forall s, t | s in strings && t in strings && sha(s) == sha(t)
      ensures s == t
    {
      ThreeStrings(sha, d, e, s);
      ThreeStrings(sha, d, e, t);
      assert sha(s)[0] == sha(t)[0];
    }
  }

  lemma OverIsClear(dir: Directory, allowed: set<char>)
    requires Over(dir, allowed) && (':' !in allowed || forall c | c in allowed :: !HexDigit(c))
    ensures ClearPaths(dir)
  {
    forall p, i | p in dir && 0 <= i < |p|
      ensures !MarkAt(p, i)
    {
      if i + 65 <= |p| && p[i] == ':' {
        assert p[i] in allowed && p[i + 1] in allowed;
        NoMark(p, i, i + 1);
      }
    }
  }

  lemma ClearToldApart(allowed: set<char>)
    requires ':' !in allowed || forall c | c in allowed :: !HexDigit(c)
    ensures TellsApart(allowed)
  {
    forall sha: Hash, walk, other, dir, dir' |
        Walks(walk, dir) && Walks(other, dir') && Over(dir, allowed) && Over(dir', allowed)
        && HexHash(sha) && NoCollision(sha, Hashed(sha, walk) + Hashed(sha, other))
      ensures BundleDigest(sha, walk) == BundleDigest(sha, other) <==> dir == dir'
    {
      OverIsClear(dir, allowed);
      OverIsClear(dir', allowed);
      DigestIsFaithful(sha, walk, other, dir, dir');
    }
  }

  lemma CharactersOfExample(d: char)
    ensures var e := Colliding(d);
            Over(map[[d] := "", e := e + ""], {d, ':'}) && Over(map[e + e := ""], {d, ':'})
  {
    assert forall c | c in Colliding(d) :: c == d || c == ':';
  }

  /** Two directories with one hash, and no collision. */
  lemma Misread(d: char)
    returns (sha: Hash, walk: seq<File>, other: seq<File>, dir: Directory, dir': Directory)
    requires HexDigit(d)
    ensures Walks(walk, dir) && Walks(other, dir') && Over(dir, {d, ':'}) && Over(dir', {d, ':'})
    ensures HexHash(sha) && NoCollision(sha, Hashed(sha, walk) + Hashed(sha, other))
    ensures dir != dir' && BundleDigest(sha, walk) == BundleDigest(sha, other)
  {
    var e := Colliding(d);
    sha := ByLength(d);
    walk, other := [File([d], ""), File(e, e + "")], [File(e + e, "")];
    dir, dir' := map[[d] := "", e := e + ""], map[e + e := ""];
    ColonsBreakFaithfulness(sha, [d], "", "");
    ExampleWithoutCollision(sha, d, e);
    CharactersOfExample(d);
  }

  /** The hash tells directories apart, short of a collision, exactly if their paths may not use
      both ":" and a hexadecimal digit. */
  lemma TellsApartExactly(allowed: set<char>)
    ensures TellsApart(allowed) <==> ':' !in allowed || forall c | c in allowed :: !HexDigit(c)
  {
    if ':' !in allowed || forall c | c in allowed :: !HexDigit(c) {
      ClearToldApart(allowed);
    } else {
      var d :| d in allowed && HexDigit(d);
      NotToldApart(allowed, d);
    }
  }

  lemma NotToldApart(allowed: set<char>, d: char)
    requires ':' in allowed && d in allowed && HexDigit(d)
    ensures !TellsApart(allowed)
  {
    var sha, walk, other, dir, dir' := Misread(d);
    assert Over(dir, allowed) && Over(dir', allowed);
  }
}
