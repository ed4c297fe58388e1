/** The fingerprint of a skill directory (`registry/skill.py`). */
module DirectoryDigest {

  /** Bytes by relative path. */
  type Files = map<string, string>
  type Hash = string -> string
  type Order = (string, string) -> bool

  /** The order `sorted` uses on paths. */
  ghost predicate TotalOrder(before: Order) {
    && (forall a, b :: !(before(a, b) && before(b, a)))
    && (forall a, b, c :: before(a, b) && before(b, c) ==> before(a, c))
    && (forall a, b :: a == b || before(a, b) || before(b, a))
  }

  function Insert(before: Order, x: string, s: seq<string>): seq<string> {
    if s == [] || before(x, s[0]) then [x] + s else [s[0]] + Insert(before, x, s[1..])
  }

  /** `sorted`. */
  function Sort(before: Order, s: seq<string>): seq<string> {
    if s == [] then [] else Insert(before, s[0], Sort(before, s[1..]))
  }

  function Line(hash: Hash, path: string, bytes: string): string {
    path + ":" + hash(bytes) + "\n"
  }

  function Serialise(hash: Hash, files: Files, paths: seq<string>): string
    requires forall p | p in paths :: p in files
  {
    if paths == [] then "" else Line(hash, paths[0], files[paths[0]]) + Serialise(hash, files, paths[1..])
  }

  /** A directory walk: every path once, in whatever order. */
  predicate Walk(files: Files, listing: seq<string>) {
    && (forall p | p in listing :: p in files) && (forall p | p in files :: p in listing)
    && forall i, j | 0 <= i < j < |listing| :: listing[i] != listing[j]
  }

  lemma {:induction false} SortKeepsElements(before: Order, s: seq<string>)
    ensures forall x :: x in Sort(before, s) <==> x in s
  {
    if s != [] {
      SortKeepsElements(before, s[1..]);
      InsertKeepsElements(before, s[0], Sort(before, s[1..]));
    }
  }

  lemma {:induction false} InsertKeepsElements(before: Order, x: string, s: seq<string>)
    ensures forall y :: y in Insert(before, x, s) <==> y == x || y in s
  {
    if s != [] && !before(x, s[0]) { InsertKeepsElements(before, x, s[1..]); }
  }

  /** `directory_digest` of a walk. */
  function Digest(hash: Hash, before: Order, files: Files, listing: seq<string>): string
    requires Walk(files, listing)
  {
    SortKeepsElements(before, listing);
    hash(Serialise(hash, files, Sort(before, listing)))
  }

  method DigestDirectory(hash: Hash, before: Order, files: Files, listing: seq<string>) returns (digest: string)
    requires Walk(files, listing)
    ensures digest == Digest(hash, before, files, listing)
  {
    SortKeepsElements(before, listing);
    var paths := Sort(before, listing);
    var text := "";
    assert paths[0..] == paths;
    for i := 0 to |paths|
      invariant text + Serialise(hash, files, paths[i..]) == Serialise(hash, files, paths)
    {
      assert paths[i..][0] == paths[i] && paths[i..][1..] == paths[i + 1..];
      var line := Line(hash, paths[i], files[paths[i]]);
      assert text + (line + Serialise(hash, files, paths[i + 1..]))
          == (text + line) + Serialise(hash, files, paths[i + 1..]);
      text := text + line;
    }
    assert paths[|paths|..] == [] && text + "" == text;
    digest := hash(text);
  }

  // ---------------------------------------------------------------- walk order

  predicate Ascending(before: Order, s: seq<string>) {
    forall i, j | 0 <= i < j < |s| :: before(s[i], s[j])
  }

  lemma {:induction false} InsertAscends(before: Order, x: string, s: seq<string>)
    requires TotalOrder(before) && Ascending(before, s) && x !in s
    ensures Ascending(before, Insert(before, x, s))
  {
    if s != [] && !before(x, s[0]) {
      InsertAscends(before, x, s[1..]);
      InsertKeepsElements(before, x, s[1..]);
      var rest := Insert(before, x, s[1..]);
      forall k | 0 <= k < |rest| ensures before(s[0], rest[k]) { assert rest[k] in rest; }
    } else if s != [] {
      forall k | 0 <= k < |s| ensures before(x, s[k]) { assert k == 0 || before(s[0], s[k]); }
    }
  }

  lemma {:induction false} SortAscends(before: Order, s: seq<string>)
    requires TotalOrder(before) && forall i, j | 0 <= i < j < |s| :: s[i] != s[j]
    ensures Ascending(before, Sort(before, s))
  {
    if s != [] {
      SortAscends(before, s[1..]);
      SortKeepsElements(before, s[1..]);
      InsertAscends(before, s[0], Sort(before, s[1..]));
    }
  }

  lemma FirstIsIn(s: seq<string>)
    ensures s == [] || s[0] in s
  {
  }

  lemma {:induction false} AscendingIsUnique(before: Order, a: seq<string>, b: seq<string>)
    requires TotalOrder(before) && Ascending(before, a) && Ascending(before, b)
    requires forall x :: x in a <==> x in b
    ensures a == b
  {
    FirstIsIn(a);
    FirstIsIn(b);
    if a != [] && b != [] {
      assert a[0] == b[0];
      forall x ensures x in a[1..] <==> x in b[1..] {
        assert x in a[1..] <==> x in a && x != a[0];
        assert x in b[1..] <==> x in b && x != b[0];
      }
      AscendingIsUnique(before, a[1..], b[1..]);
      assert a == [a[0]] + a[1..] && b == [b[0]] + b[1..];
    }
  }

  // ------------------------------------------------------------------ reading back

  predicate Without(s: string, c: char) {
    forall i | 0 <= i < |s| :: s[i] != c
  }

  lemma HeadOf(x: string, r: string, mark: char)
    ensures (x + [mark] + r)[0] == if x == "" then mark else x[0]
    ensures (x + [mark] + r)[1..] == if x == "" then r else x[1..] + [mark] + r
  {
  }

  lemma {:induction false} SameUpToMark(x: string, r: string, y: string, s: string, mark: char)
    requires Without(x, mark) && Without(y, mark) && x + [mark] + r == y + [mark] + s
    ensures x == y && r == s
  {
    HeadOf(x, r, mark);
    HeadOf(y, s, mark);
    if x != "" && y != "" {
      SameUpToMark(x[1..], r, y[1..], s, mark);
      assert x == [x[0]] + x[1..] && y == [y[0]] + y[1..];
    }
  }

  lemma LastOf(r: string, x: string, mark: char)
    ensures var t := r + [mark] + x; t[|t| - 1] == if x == "" then mark else x[|x| - 1]
    ensures var t := r + [mark] + x; t[..|t| - 1] == if x == "" then r else r + [mark] + x[..|x| - 1]
  {
  }

  lemma {:induction false} SameFromMark(r: string, x: string, s: string, y: string, mark: char)
    requires Without(x, mark) && Without(y, mark) && r + [mark] + x == s + [mark] + y
    ensures x == y && r == s
  {
    LastOf(r, x, mark);
    LastOf(s, y, mark);
    if x != "" && y != "" {
      SameFromMark(r, x[..|x| - 1], s, y[..|y| - 1], mark);
      assert x == x[..|x| - 1] + [x[|x| - 1]] && y == y[..|y| - 1] + [y[|y| - 1]];
    }
  }

  /** Hash values are hexadecimal. */
  ghost predicate HexOutput(hash: Hash) {
    forall x :: Without(hash(x), '\n') && Without(hash(x), ':')
  }

  predicate NoNewlines(files: Files) {
    forall p | p in files :: Without(p, '\n')
  }

  lemma FirstLine(hash: Hash, p: string, b: string, r: string, q: string, c: string, s: string)
    requires HexOutput(hash) && Without(p, '\n') && Without(q, '\n')
    requires Line(hash, p, b) + r == Line(hash, q, c) + s
    ensures p == q && hash(b) == hash(c) && r == s
  {
    var x, y := p + ":" + hash(b), q + ":" + hash(c);
    assert Line(hash, p, b) + r == x + ['\n'] + r && Line(hash, q, c) + s == y + ['\n'] + s;
    SameUpToMark(x, r, y, s, '\n');
    SameFromMark(p, hash(b), q, hash(c), ':');
  }

  lemma {:induction false} SerialisationReads(hash: Hash, a: Files, pa: seq<string>, b: Files, pb: seq<string>)
    requires HexOutput(hash) && NoNewlines(a) && NoNewlines(b)
    requires (forall p | p in pa :: p in a) && (forall p | p in pb :: p in b)
    requires Serialise(hash, a, pa) == Serialise(hash, b, pb)
    ensures pa == pb && forall p | p in pa :: hash(a[p]) == hash(b[p])
  {
    if pa != [] && pb != [] {
      FirstLine(hash, pa[0], a[pa[0]], Serialise(hash, a, pa[1..]), pb[0], b[pb[0]], Serialise(hash, b, pb[1..]));
      SerialisationReads(hash, a, pa[1..], b, pb[1..]);
      assert pa == [pa[0]] + pa[1..] && pb == [pb[0]] + pb[1..];
    }
  }

  /** No two different inputs met here have the same hash. */
  ghost predicate CollisionFree(hash: Hash, inputs: set<string>) {
    forall x, y | x in inputs && y in inputs && hash(x) == hash(y) :: x == y
  }

  ghost function Hashed(hash: Hash, before: Order, files: Files, listing: seq<string>): set<string>
    requires Walk(files, listing)
  {
    SortKeepsElements(before, listing);
    files.Values + {Serialise(hash, files, Sort(before, listing))}
  }

  /** A faithful fingerprint: two directories have the same digest exactly when
      they hold the same paths with the same bytes, however they were walked. */
  lemma DigestIsFaithful(hash: Hash, before: Order, a: Files, la: seq<string>, b: Files, lb: seq<string>)
    requires TotalOrder(before) && HexOutput(hash) && NoNewlines(a) && NoNewlines(b)
    requires Walk(a, la) && Walk(b, lb)
    requires CollisionFree(hash, Hashed(hash, before, a, la) + Hashed(hash, before, b, lb))
    ensures Digest(hash, before, a, la) == Digest(hash, before, b, lb) <==> a == b
  {
    var pa, pb := Sort(before, la), Sort(before, lb);
    SortKeepsElements(before, la);
    SortKeepsElements(before, lb);
    if a == b {
      SortAscends(before, la);
      SortAscends(before, lb);
      AscendingIsUnique(before, pa, pb);
    }
    if Digest(hash, before, a, la) == Digest(hash, before, b, lb) {
      SerialisationReads(hash, a, pa, b, pb);
      assert a.Keys == b.Keys;
      forall p | p in a ensures a[p] == b[p] {
        assert p in pa && a[p] in a.Values && b[p] in b.Values;
      }
    }
  }

  /** With a newline in a path it is not: for every hash, one file whose path
      spells another file's line and that pair of files share their digest. */
  lemma NewlinePathsCollide(hash: Hash, before: Order, c: string, d: string)
    requires TotalOrder(before) && before("x", "y")
    ensures
      var path := "x:" + hash(c) + "\ny";
      var one: Files := map[path := d];
      var two: Files := map["x" := c, "y" := d];
      && one != two && Walk(one, [path]) && Walk(two, ["x", "y"])
      && Digest(hash, before, one, [path]) == Digest(hash, before, two, ["x", "y"])
  {
    var path := "x:" + hash(c) + "\ny";
    var one: Files := map[path := d];
    var two: Files := map["x" := c, "y" := d];
    assert |path| > 1 && "x"[0] != "y"[0];
    SortOne(before, path);
    SortTwo(before, "x", "y");
    hide Sort, TotalOrder;
    SerialiseOne(hash, one, path);
    SerialiseTwo(hash, two, "x", "y");
    hide Serialise;
    assert Line(hash, path, d) == Line(hash, "x", c) + Line(hash, "y", d);
  }

  lemma SortOne(before: Order, p: string)
    ensures Sort(before, [p]) == [p]
  {
  }

  lemma SortTwo(before: Order, p: string, q: string)
    requires before(p, q)
    ensures Sort(before, [p, q]) == [p, q]
  {
    SortOne(before, q);
    assert [p, q][1..] == [q];
  }

  lemma SerialiseOne(hash: Hash, files: Files, p: string)
    requires p in files
    ensures Serialise(hash, files, [p]) == Line(hash, p, files[p])
  {
  }

  lemma SerialiseTwo(hash: Hash, files: Files, p: string, q: string)
    requires p in files && q in files
    ensures Serialise(hash, files, [p, q]) == Line(hash, p, files[p]) + Line(hash, q, files[q])
  {
    SerialiseOne(hash, files, q);
    assert [p, q][1..] == [q];
  }
}
