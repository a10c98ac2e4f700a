/** kernel/util/path.c: a path is cut into C strings at its slashes. */
module Paths {

  const NUL := '\0'

  /** The first slash at or behind a position, or the end of the path. */
  function SlashAt(path: string, at: nat): (k: nat)
    requires at <= |path|
    ensures at <= k <= |path| && '/' !in path[at..k] && (k < |path| ==> path[k] == '/')
    decreases |path| - at
  {
    if at == |path| || path[at] == '/' then at else SlashAt(path, at + 1)
  }

  /** The parts of a path from a position on; there is always one more part than slashes. */
  function Split(path: string, at: nat): (r: seq<string>)
    requires at <= |path|
    ensures |r| >= 1
    decreases |path| - at
  {
    var k := SlashAt(path, at);
    if k == |path| then [path[at..]] else [path[at..k]] + Split(path, k + 1)
  }

  function Join(parts: seq<string>): string
    requires |parts| >= 1
  {
    if |parts| == 1 then parts[0] else parts[0] + ['/'] + Join(parts[1..])
  }

  /** Splitting loses nothing. */
  lemma {:induction false} JoinAfterSplit(path: string, at: nat)
    requires at <= |path|
    ensures Join(Split(path, at)) == path[at..]
    decreases |path| - at
  {
    var k := SlashAt(path, at);
    if k < |path| {
      JoinAfterSplit(path, k + 1);
      assert Split(path, at)[1..] == Split(path, k + 1);
      assert path[at..] == path[at..k] + ['/'] + path[k + 1..];
    }
  }

  /** No part holds a slash. */
  lemma {:induction false} PartsHaveNoSlash(path: string, at: nat)
    requires at <= |path|
    ensures forall i :: 0 <= i < |Split(path, at)| ==> '/' !in Split(path, at)[i]
    decreases |path| - at
  {
    var k := SlashAt(path, at);
    if k < |path| {
      PartsHaveNoSlash(path, k + 1);
    } else {
      assert path[at..k] == path[at..];
    }
  }

  /** The slashes among the first n characters. */
  function Slashes(path: string, n: nat): nat
    requires n <= |path|
  {
    if n == 0 then 0 else Slashes(path, n - 1) + if path[n - 1] == '/' then 1 else 0
  }

  lemma {:induction false} NoSlashBetween(path: string, a: nat, b: nat)
    requires a <= b <= |path| && '/' !in path[a..b]
    ensures Slashes(path, a) == Slashes(path, b)
    decreases b
  {
    if a < b {
      assert path[a..b][b - 1 - a] == path[b - 1];
      assert path[a..b - 1] == path[a..b][..b - 1 - a];
      NoSlashBetween(path, a, b - 1);
    }
  }

  lemma {:induction false} SplitCounts(path: string, at: nat)
    requires at <= |path|
    ensures |Split(path, at)| == Slashes(path, |path|) - Slashes(path, at) + 1
    decreases |path| - at
  {
    var k := SlashAt(path, at);
    NoSlashBetween(path, at, k);
    if k < |path| {
      SplitCounts(path, k + 1);
    }
  }

  // ---------------------------------------------------------------- the buffer

  /** The C string at a position of a buffer. */
  function CString(s: string, at: nat): string
    decreases |s| - at
  {
    if at >= |s| || s[at] == NUL then [] else [s[at]] + CString(s, at + 1)
  }

  /** The buffer holds the path with its slashes, and its end, turned to NUL. */
  ghost predicate CutUp(buf: string, path: string) {
    && |buf| == |path| + 1 && buf[|path|] == NUL
    && forall i :: 0 <= i < |path| ==> buf[i] == if path[i] == '/' then NUL else path[i]
  }

  /** The C strings of the buffer are the parts of the path. */
  lemma {:induction false} CStringIsPart(buf: string, path: string, at: nat)
    requires CutUp(buf, path) && NUL !in path && at <= |path|
    ensures CString(buf, at) == path[at..SlashAt(path, at)]
    decreases |path| - at
  {
    if at < |path| && path[at] != '/' {
      CStringIsPart(buf, path, at + 1);
    }
  }

  /** rest are the parts of the path from a position on. */
  ghost predicate PartsFrom(path: string, at: nat, rest: seq<string>) {
    rest == [] || (at <= |path| && rest == Split(path, at))
  }

  lemma NextPart(buf: string, path: string, at: nat, rest: seq<string>)
    requires CutUp(buf, path) && NUL !in path && rest != [] && PartsFrom(path, at, rest)
    ensures var name := CString(buf, at); rest == [name] + rest[1..] && PartsFrom(path, at + |name| + 1, rest[1..])
  {
    CStringIsPart(buf, path, at);
    var k := SlashAt(path, at);
    if k == |path| {
      assert path[at..k] == path[at..];
      assert rest[1..] == [];
    } else {
      assert rest[1..] == Split(path, k + 1);
    }
  }

  /** parse_path into a zeroed buffer. */
  method ParsePath(path: string, buf: array<char>) returns (segments: nat)
    requires buf.Length == |path| + 1 && forall i :: 0 <= i < buf.Length ==> buf[i] == NUL
    modifies buf
    ensures segments == Slashes(path, |path|) && CutUp(buf[..], path)
  {
    segments := 0;
    var at := 0;
    while at < |path|
      invariant 0 <= at <= |path| && segments == Slashes(path, at)
      invariant forall i :: 0 <= i < at ==> buf[i] == if path[i] == '/' then NUL else path[i]
      invariant forall i :: at <= i < buf.Length ==> buf[i] == NUL
    {
      if path[at] == '/' {
        buf[at] := NUL;
        segments := segments + 1;
      } else {
        buf[at] := path[at];
      }
      at := at + 1;
    }
  }
}
