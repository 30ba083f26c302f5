/** Resource keys, `kind:value` (crates/core/src/lease.rs).
    `path` and `file` keys nest; every other kind overlaps only when equal. */
module ResourceKeys {

  /** `str::trim_end_matches('/')`. */
  function TrimSlashes(s: string): (r: string)
    ensures r <= s
    ensures r != [] ==> r[|r| - 1] != '/'
    ensures forall i :: |r| <= i < |s| ==> s[i] == '/'
  {
    if s != [] && s[|s| - 1] == '/' then TrimSlashes(s[..|s| - 1]) else s
  }

  /** The index of the first `c` in `s`, or `|s|`. */
  function Find(s: string, c: char): (n: nat)
    ensures n <= |s|
    ensures forall i :: 0 <= i < n ==> s[i] != c
    ensures n < |s| ==> s[n] == c
  {
    if s == [] || s[0] == c then 0 else 1 + Find(s[1..], c)
  }

  function Kind(key: string): string {
    var n := Find(key, ':');
    if n < |key| then key[..n] else "resource"
  }

  function Value(key: string): string {
    var n := Find(key, ':');
    if n < |key| then key[n + 1..] else key
  }

  predicate IsHierarchical(key: string) {
    Kind(key) == "path" || Kind(key) == "file"
  }

  predicate IsAncestor(parent: string, child: string) {
    var parent := TrimSlashes(parent);
    |child| > |parent| && parent <= child && child[|parent|] == '/'
  }

  predicate Overlaps(a: string, b: string) {
    a == b
    || (IsHierarchical(a) && Kind(a) == Kind(b)
        && (IsAncestor(Value(a), Value(b)) || IsAncestor(Value(b), Value(a))))
  }

  /** What `New` computes. */
  function Normalised(key: string): string {
    if ("path:" <= key || "file:" <= key) && |key| > |"path:/"| then TrimSlashes(key) else key
  }

  /** `ResourceKey::new`: trailing slashes go, one at a time. */
  method New(key: string) returns (k: string)
    ensures k == Normalised(key)
  {
    k := key;
    if ("path:" <= key || "file:" <= key) && |key| > |"path:/"| {
      while k != [] && k[|k| - 1] == '/'
        invariant TrimSlashes(k) == TrimSlashes(key)
        decreases |k|
      {
        k := k[..|k| - 1];
      }
    }
  }

  // ----- What a key means: the paths at or beneath it -----

  /** The pieces of `s` between slashes. */
  function Split(s: string): (parts: seq<string>)
    ensures parts != []
  {
    if s == [] then [[]] else
    Glue(s[0], Split(s[1..]))
  }

  /** One more character in front of the pieces. */
  function Glue(c: char, parts: seq<string>): (glued: seq<string>)
    requires parts != []
    ensures glued != []
  {
    if c == '/' then [[]] + parts else [[c] + parts[0]] + parts[1..]
  }

  function Join(parts: seq<string>): string
    requires parts != []
  {
    if |parts| == 1 then parts[0] else parts[0] + ['/'] + Join(parts[1..])
  }

  function Components(key: string): seq<string> {
    Split(TrimSlashes(Value(key)))
  }

  /** A hierarchical key covers every path whose components extend its own. */
  ghost predicate Covers(key: string, path: seq<string>) {
    IsHierarchical(key) && Components(key) <= path
  }

  lemma {:induction false} JoinSplit(s: string)
    ensures Join(Split(s)) == s
  {
    if s != [] {
      JoinSplit(s[1..]);
      JoinGlue(s[0], Split(s[1..]));
      assert s == [s[0]] + s[1..];
    }
  }

  lemma JoinGlue(c: char, parts: seq<string>)
    requires parts != []
    ensures Join(Glue(c, parts)) == [c] + Join(parts)
  {
    assert Glue(c, parts)[1..] == if c == '/' then parts else parts[1..];
  }

  lemma {:induction false} JoinPrefix(a: seq<string>, b: seq<string>)
    requires a != [] && a < b
    ensures |Join(a)| < |Join(b)| && Join(a) <= Join(b) && Join(b)[|Join(a)|] == '/'
  {
    assert a[0] == b[0];
    if |a| > 1 {
      assert a[1..] < b[1..];
      JoinPrefix(a[1..], b[1..]);
    }
  }

  lemma FindFrom(s: string, c: char, n: nat)
    requires n <= |s| && (forall i :: 0 <= i < n ==> s[i] != c) && (n < |s| ==> s[n] == c)
    ensures Find(s, c) == n
  {
  }

  lemma GlueAppend(c: char, a: seq<string>, b: seq<string>)
    requires a != []
    ensures Glue(c, a + b) == Glue(c, a) + b
  {
    assert (a + b)[0] == a[0] && (a + b)[1..] == a[1..] + b;
  }

  lemma {:induction false} SplitAtSlash(s: string, k: nat)
    requires k < |s| && s[k] == '/'
    ensures Split(s) == Split(s[..k]) + Split(s[k + 1..])
  {
    var rest := s[1..];
    if k > 0 {
      SplitAtSlash(rest, k - 1);
      GlueAppend(s[0], Split(rest[..k - 1]), Split(rest[k..]));
      assert s[..k][1..] == rest[..k - 1] && rest[k..] == s[k + 1..];
      assert Split(s[..k]) == Glue(s[0], Split(rest[..k - 1]));
    }
  }

  lemma TrimIsLast(s: string, r: string)
    requires r <= s && (r != [] ==> r[|r| - 1] != '/')
    requires forall i :: |r| <= i < |s| ==> s[i] == '/'
    ensures TrimSlashes(s) == r
  {
    var t := TrimSlashes(s);
    assert r != [] ==> s[|r| - 1] == r[|r| - 1];
    assert t != [] ==> s[|t| - 1] == t[|t| - 1];
    assert t == s[..|t|] && r == s[..|r|];
  }

  lemma TrimAcross(c: string, n: nat)
    requires n < |c| && c[n] == '/'
    ensures var tr := TrimSlashes(c[n + 1..]);
            tr != [] ==> TrimSlashes(c) == c[..n + 1 + |tr|]
    ensures TrimSlashes(c[n + 1..]) == [] ==> TrimSlashes(c) == TrimSlashes(c[..n])
  {
    var tr := TrimSlashes(c[n + 1..]);
    if tr != [] {
      var tc := c[..n + 1 + |tr|];
      assert tc[|tc| - 1] == tr[|tr| - 1];
      TrimIsLast(c, tc);
    } else {
      TrimIsLast(c, TrimSlashes(c[..n]));
    }
  }

  lemma AncestorIsPrefix(p: string, c: string)
    requires IsAncestor(p, c)
    ensures Split(TrimSlashes(p)) <= Split(TrimSlashes(c))
  {
    var tp := TrimSlashes(p);
    TrimAcross(c, |tp|);
    TrimIsLast(tp, tp);
    assert c[..|tp|] == tp;
    var tc := TrimSlashes(c);
    if |tc| > |tp| {
      assert tc[..|tp|] == tp;
      SplitAtSlash(tc, |tp|);
    }
  }

  lemma PrefixIsAncestor(p: string, c: string)
    requires Split(TrimSlashes(p)) <= Split(TrimSlashes(c))
    requires TrimSlashes(p) != TrimSlashes(c) || TrimSlashes(c) != c
    ensures IsAncestor(p, c)
  {
    var tp, tc := TrimSlashes(p), TrimSlashes(c);
    JoinSplit(tp);
    JoinSplit(tc);
    if Split(tp) == Split(tc) {
      assert c[|tc|] == '/';
    } else {
      JoinPrefix(Split(tp), Split(tc));
    }
  }

  lemma KeyFromParts(key: string)
    requires IsHierarchical(key)
    ensures key == Kind(key) + ":" + Value(key)
  {
    var n := Find(key, ':');
    assert n < |key|;
    assert key == key[..n] + [key[n]] + key[n + 1..];
  }

  /** The byte test of `is_ancestor` is a prefix test on components. */
  lemma OverlapIsComponentPrefix(a: string, b: string)
    requires IsHierarchical(a) && Kind(a) == Kind(b)
    ensures Overlaps(a, b) <==> Components(a) <= Components(b) || Components(b) <= Components(a)
  {
    var va, vb := Value(a), Value(b);
    if IsAncestor(va, vb) {
      AncestorIsPrefix(va, vb);
    } else if IsAncestor(vb, va) {
      AncestorIsPrefix(vb, va);
    } else {
      KeyFromParts(a);
      KeyFromParts(b);
      if Components(a) <= Components(b) && (TrimSlashes(va) != TrimSlashes(vb) || TrimSlashes(vb) != vb) {
        PrefixIsAncestor(va, vb);
      } else if Components(b) <= Components(a) && (TrimSlashes(va) != TrimSlashes(vb) || TrimSlashes(va) != va) {
        PrefixIsAncestor(vb, va);
      }
    }
  }

  lemma PrefixesMeet(a: seq<string>, b: seq<string>, path: seq<string>)
    requires a <= path && b <= path
    ensures a <= b || b <= a
  {
    assert a == path[..|a|] && b == path[..|b|];
  }

  /** What overlapping means. Two nesting keys of one kind overlap exactly when some
      path lies at or beneath both; every other pair overlaps only when equal. */
  lemma OverlapMeansSharedPath(a: string, b: string)
    ensures IsHierarchical(a) && Kind(a) == Kind(b) ==>
              (Overlaps(a, b) <==> exists path :: Covers(a, path) && Covers(b, path))
    ensures !IsHierarchical(a) || Kind(a) != Kind(b) ==> (Overlaps(a, b) <==> a == b)
  {
    if IsHierarchical(a) && Kind(a) == Kind(b) {
      OverlapIsComponentPrefix(a, b);
      if path :| Covers(a, path) && Covers(b, path) {
        PrefixesMeet(Components(a), Components(b), path);
      } else {
        assert !(Covers(a, Components(b)) && Covers(b, Components(b)));
        assert !(Covers(a, Components(a)) && Covers(b, Components(a)));
      }
    }
  }

  lemma OverlapIsSymmetric(a: string, b: string)
    ensures Overlaps(a, b) <==> Overlaps(b, a)
  {
  }

  /** Normalising a key never changes what it is in the way of. */
  lemma NormalisingKeepsOverlaps(key: string, other: string)
    ensures Overlaps(Normalised(key), other) <==> Overlaps(key, other)
  {
    var k := Normalised(key);
    if k != key {
      FindFrom(key, ':', 4);
      assert key[4] != '/';
      FindFrom(k, ':', 4);
      assert Kind(k) == Kind(key) == key[..4];
      TrimIsLast(Value(key), TrimSlashes(Value(k)));
      if Kind(other) == Kind(key) {
        OverlapIsComponentPrefix(k, other);
        OverlapIsComponentPrefix(key, other);
      }
    }
  }
}
