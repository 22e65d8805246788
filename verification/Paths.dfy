/** Splitting a path into directory and file name (directory.c). */
module Paths {
  import opened Sectors

  // A C string, without the zero at its end.
  type Path = seq<Byte>

  const SLASH: Byte := 0x2F

  // ----- components -----

  // The length of the token a path starts with.
  function TokenEnd(p: Path): (n: nat)
    ensures n <= |p| && (forall i :: 0 <= i < n ==> p[i] != SLASH) && (n < |p| ==> p[n] == SLASH)
  {
    if p == [] || p[0] == SLASH then 0 else 1 + TokenEnd(p[1..])
  }

  // The non-empty parts between slashes.
  function Components(p: Path): seq<Path>
    decreases |p|
  {
    if p == [] then []
    else if p[0] == SLASH then Components(p[1..])
    else [p[..TokenEnd(p)]] + Components(p[TokenEnd(p)..])
  }

  predicate IsToken(t: Path) {
    t != [] && SLASH !in t
  }

  lemma {:induction false} ComponentsAreTokens(p: Path)
    ensures forall i :: 0 <= i < |Components(p)| ==> IsToken(Components(p)[i])
    decreases |p|
  {
    if p != [] {
      if p[0] == SLASH {
        ComponentsAreTokens(p[1..]);
      } else {
        ComponentsAreTokens(p[TokenEnd(p)..]);
      }
    }
  }

  // Components each followed by a slash.
  function Trail(cs: seq<Path>): Path {
    if cs == [] then [] else cs[0] + [SLASH] + Trail(cs[1..])
  }

  lemma {:induction false} TrailSnoc(cs: seq<Path>, c: Path)
    ensures Trail(cs + [c]) == Trail(cs) + c + [SLASH]
    decreases |cs|
  {
    if cs == [] {
      assert cs + [c] == [c] && [c][1..] == [];
    } else {
      assert (cs + [c])[1..] == cs[1..] + [c];
      TrailSnoc(cs[1..], c);
    }
  }

  lemma TokenEndOf(t: Path, rest: Path)
    requires IsToken(t) && (rest == [] || rest[0] == SLASH)
    ensures TokenEnd(t + rest) == |t|
  {
    assert forall i :: 0 <= i < |t| ==> (t + rest)[i] == t[i] && t[i] in t;
    assert rest != [] ==> (t + rest)[|t|] == SLASH;
  }

  // A token at the front is the first component.
  lemma FirstComponent(t: Path, rest: Path)
    requires IsToken(t) && (rest == [] || rest[0] == SLASH)
    ensures Components(t + rest) == [t] + Components(rest)
  {
    TokenEndOf(t, rest);
    assert (t + rest)[0] == t[0] != SLASH;
    assert (t + rest)[..|t|] == t && (t + rest)[|t|..] == rest;
  }

  lemma SkipSlash(p: Path)
    ensures Components([SLASH] + p) == Components(p)
  {
    assert ([SLASH] + p)[1..] == p;
  }

  lemma {:induction false} TrailComponents(cs: seq<Path>, rest: Path)
    requires forall i :: 0 <= i < |cs| ==> IsToken(cs[i])
    ensures Components(Trail(cs) + rest) == cs + Components(rest)
    decreases |cs|
  {
    hide Components, TokenEnd;
    if cs == [] {
      assert Trail(cs) + rest == rest;
    } else {
      var more := Trail(cs[1..]) + rest;
      assert Trail(cs) + rest == cs[0] + ([SLASH] + more);
      FirstComponent(cs[0], [SLASH] + more);
      SkipSlash(more);
      TrailComponents(cs[1..], rest);
    }
  }

  lemma {:induction false} ComponentsWithin(p: Path, x: Byte)
    ensures forall i :: 0 <= i < |Components(p)| && x in Components(p)[i] ==> x in p
    decreases |p|
  {
    if p != [] {
      ComponentsWithin(if p[0] == SLASH then p[1..] else p[TokenEnd(p)..], x);
    }
  }

  // ----- splitting -----

  function Root(p: Path): Path {
    if p != [] && p[0] == SLASH then [SLASH] else []
  }

  function DirectoryOf(p: Path): Path {
    var cs := Components(p);
    Root(p) + if cs == [] then [] else Trail(cs[..|cs| - 1])
  }

  function FileNameOf(p: Path): Path {
    var cs := Components(p);
    if cs == [] then [] else cs[|cs| - 1]
  }

  // strtok_r with a slash: the next token of P from START on, and where it ends.
  method NextToken(p: Path, start: nat) returns (token: Path, end: nat)
    requires start <= |p|
    ensures start <= end <= |p|
    ensures Components(p[start..]) == if token == [] then [] else [token] + Components(p[end..])
    ensures token != [] ==> end > start
  {
    var i := start;
    while i < |p| && p[i] == SLASH
      invariant start <= i <= |p| && Components(p[start..]) == Components(p[i..])
    {
      assert p[i..][1..] == p[i + 1..];
      i := i + 1;
    }
    end := i;
    while end < |p| && p[end] != SLASH
      invariant i <= end <= |p| && end - i <= TokenEnd(p[i..])
    {
      assert p[i..][end - i] == p[end];
      end := end + 1;
    }
    token := p[i..end];
    assert end < |p| ==> p[i..][end - i] == p[end];
    assert p[i..][..end - i] == token && p[i..][end - i..] == p[end..];
  }

  function One(c: Path): seq<Path> {
    if c == [] then [] else [c]
  }

  /** Halfway through a path: the components SEEN are in the directory, LAST was
      the last token found, MORE is what is still to come. */
  ghost predicate Halfway(p: Path, seen: seq<Path>, last: Path, more: seq<Path>, directory: Path) {
    && Components(p) == seen + One(last) + more
    && directory == Root(p) + Trail(seen) && (last == [] ==> seen == [])
  }

  lemma HalfwayStart(p: Path)
    ensures Halfway(p, [], [], Components(p), Root(p))
  {
    assert Root(p) + [] == Root(p);
  }

  lemma HalfwayStep(p: Path, seen: seq<Path>, last: Path, token: Path, more: seq<Path>, directory: Path)
    requires Halfway(p, seen, last, [token] + more, directory) && token != []
    ensures Halfway(p, seen + One(last), token, more, if last == [] then directory else directory + last + [SLASH])
  {
    if last != [] {
      TrailSnoc(seen, last);
      assert Root(p) + (Trail(seen) + last + [SLASH]) == directory + last + [SLASH];
    }
    assert seen + One(last) + ([token] + more) == seen + One(last) + [token] + more;
  }

  lemma HalfwayEnd(p: Path, seen: seq<Path>, last: Path, directory: Path)
    requires Halfway(p, seen, last, [], directory)
    ensures directory == DirectoryOf(p) && last == FileNameOf(p)
  {
    assert seen + One(last) + [] == seen + One(last);
    assert last != [] ==> (seen + [last])[..|seen|] == seen;
  }

  /** split_path_filename: a token goes to the directory when the next one is found. */
  method SplitPath(path: Path) returns (directory: Path, filename: Path)
    ensures directory == DirectoryOf(path) && filename == FileNameOf(path)
  {
    hide Halfway, Components;
    directory := [];
    if |path| > 0 && path[0] == SLASH {
      directory := [SLASH];
    }
    var last: Path := [];
    ghost var seen: seq<Path> := [];
    HalfwayStart(path);
    assert path[0..] == path;
    var token, at := NextToken(path, 0);
    while token != []
      invariant at <= |path|
      invariant Halfway(path, seen, last, if token == [] then [] else [token] + Components(path[at..]), directory)
      decreases |path| - at, if token == [] then 0 else 1
    {
      HalfwayStep(path, seen, last, token, Components(path[at..]), directory);
      if |last| > 0 {
        directory := directory + last + [SLASH];
      }
      seen, last := seen + One(last), token;
      token, at := NextToken(path, at);
    }
    HalfwayEnd(path, seen, last, directory);
    filename := last;
  }

  // A leading slash is no component.
  lemma Rooted(p: Path, q: Path)
    requires q == [] || q[0] != SLASH
    ensures Components(Root(p) + q) == Components(q) && Root(Root(p) + q) == Root(p)
  {
    if Root(p) == [] {
      assert Root(p) + q == q;
    } else {
      SkipSlash(q);
    }
  }

  /** The directory and the file name hold the components of the path, the file
      name the last one, and an absolute path stays absolute. */
  lemma SplitKeepsComponents(p: Path)
    ensures Components(DirectoryOf(p) + FileNameOf(p)) == Components(p)
    ensures Root(DirectoryOf(p) + FileNameOf(p)) == Root(p)
  {
    var cs := Components(p);
    ComponentsAreTokens(p);
    hide Components, Root;
    if cs == [] {
      Rooted(p, []);
      assert Root(p) + [] + [] == Root(p) + [];
      NoComponents();
    } else {
      var t, f := Trail(cs[..|cs| - 1]), cs[|cs| - 1];
      TrailComponents(cs[..|cs| - 1], f);
      FirstComponent(f, []);
      NoComponents();
      assert f + [] == f && Root(p) + t + f == Root(p) + (t + f);
      TrailStart(cs[..|cs| - 1], f);
      Rooted(p, t + f);
    }
  }

  // No two slashes in a row.
  ghost predicate Single(p: Path) {
    forall i :: 0 < i < |p| ==> p[i - 1] != SLASH || p[i] != SLASH
  }

  /** The shape of the two parts: the directory starts with a slash if and only if
      the path does, ends with one unless it is empty and has none twice in a row,
      and the file name is the last component. */
  lemma SplitShape(p: Path)
    ensures DirectoryOf(p) != [] && DirectoryOf(p)[0] == SLASH <==> p != [] && p[0] == SLASH
    ensures DirectoryOf(p) != [] ==> DirectoryOf(p)[|DirectoryOf(p)| - 1] == SLASH
    ensures Single(DirectoryOf(p))
    ensures FileNameOf(p) == if Components(p) == [] then [] else Components(p)[|Components(p)| - 1]
  {
    var cs := Components(p);
    ComponentsAreTokens(p);
    hide Components;
    if cs != [] {
      var t := Trail(cs[..|cs| - 1]);
      TrailStop(cs[..|cs| - 1]);
    }
  }

  lemma {:induction false} TrailStop(cs: seq<Path>)
    requires forall i :: 0 <= i < |cs| ==> IsToken(cs[i])
    ensures Trail(cs) != [] ==> Trail(cs)[|Trail(cs)| - 1] == SLASH && Trail(cs)[0] != SLASH
    ensures Single(Trail(cs))
    decreases |cs|
  {
    if cs != [] {
      TrailStop(cs[1..]);
      var c, t, r := cs[0], Trail(cs), Trail(cs[1..]);
      forall i | 0 < i < |t|
        ensures t[i - 1] != SLASH || t[i] != SLASH
      {
        assert i <= |c| ==> t[i - 1] == c[i - 1] && c[i - 1] in c;
        assert i > |c| + 1 ==> t[i - 1] == r[i - |c| - 2] && t[i] == r[i - |c| - 1];
      }
    }
  }

  lemma NoComponents()
    ensures Components([]) == []
  {}

  lemma TrailStart(cs: seq<Path>, f: Path)
    requires IsToken(f) && forall i :: 0 <= i < |cs| ==> IsToken(cs[i])
    ensures (Trail(cs) + f)[0] != SLASH
  {
    assert cs != [] ==> (Trail(cs) + f)[0] == cs[0][0];
  }

  /** Splitting what has been put together again gives the same two parts. */
  lemma SplitAgain(p: Path)
    ensures DirectoryOf(DirectoryOf(p) + FileNameOf(p)) == DirectoryOf(p)
    ensures FileNameOf(DirectoryOf(p) + FileNameOf(p)) == FileNameOf(p)
  {
    SplitKeepsComponents(p);
  }

  lemma FileNameWithin(p: Path, x: Byte)
    requires x !in p
    ensures x !in FileNameOf(p)
  {
    ComponentsWithin(p, x);
  }
}
