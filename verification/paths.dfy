/** POSIX `os.path.join`, which the builder uses to name every directory and
    artefact. */
module Paths {
  import opened Strings

  /** A path that starts at the root. */
  predicate Absolute(p: string)
  {
    |p| > 0 && p[0] == '/'
  }

  /** A single path component: non-empty and free of `/`. */
  predicate Component(p: string)
  {
    |p| > 0 && '/' !in p
  }

  /** `os.path.join(a, b)`: an absolute `b` replaces what came before; otherwise `b`
      is appended, with a `/` in between unless `a` is empty or already ends in one. */
  function PathJoin(a: string, b: string): (r: string)
    ensures Absolute(b) ==> r == b
    ensures !Absolute(b) && a != "" && a[|a| - 1] != '/' ==> r == a + "/" + b
    ensures !Absolute(b) && (a == "" || a[|a| - 1] == '/') ==> r == a + b
  {
    if Absolute(b) then b
    else if a == "" || a[|a| - 1] == '/' then a + b
    else a + "/" + b
  }

  /** `os.path.join(a, *parts)`: the components joined from left to right. */
  function PathJoinAll(a: string, parts: seq<string>): string
    decreases |parts|
  {
    if |parts| == 0 then a else PathJoinAll(PathJoin(a, parts[0]), parts[1..])
  }

  // ---------------------------------------------------------------------------

  /** Joining a component onto a path never loses the component: it is what follows
      the last `/`. */
  lemma LastComponent(a: string, b: string)
    requires Component(b)
    ensures LastPiece(PathJoin(a, b), '/') == b
  {
    if a == "" {
      SplitFree(b, '/');
      assert PathJoin(a, b) == b;
    } else if a[|a| - 1] == '/' {
      var front := a[..|a| - 1];
      assert a == front + "/";
      assert PathJoin(a, b) == front + ['/'] + b;
      LastPieceAfter(front, b, '/');
    } else {
      assert PathJoin(a, b) == a + ['/'] + b;
      LastPieceAfter(a, b, '/');
    }
  }

  /** Joining a component onto a directory that does not end in `/` inserts one `/`
      and adds one path piece. */
  lemma JoinStep(a: string, b: string)
    requires a != "" && a[|a| - 1] != '/' && Component(b)
    ensures PathJoin(a, b) == a + "/" + b
    ensures Split(PathJoin(a, b), '/') == Split(a, '/') + [b]
    ensures PathJoin(a, b)[|PathJoin(a, b)| - 1] != '/'
  {
    assert b[0] in b && b[|b| - 1] in b;
    SplitSnoc(a, b, '/');
  }

  /** Joining components onto a directory that does not end in `/` puts exactly one
      `/` before each of them, so the directory's own pieces come first and then one
      piece per component. */
  lemma {:induction false} JoinComponents(a: string, parts: seq<string>)
    requires a != "" && a[|a| - 1] != '/'
    requires forall k :: 0 <= k < |parts| ==> Component(parts[k])
    ensures Split(PathJoinAll(a, parts), '/') == Split(a, '/') + parts
    ensures PathJoinAll(a, parts) != "" && PathJoinAll(a, parts)[|PathJoinAll(a, parts)| - 1] != '/'
    decreases |parts|
  {
    if |parts| == 0 {
      assert Split(a, '/') + parts == Split(a, '/');
    } else {
      JoinStep(a, parts[0]);
      JoinComponents(PathJoin(a, parts[0]), parts[1..]);
      ConsPieces(Split(a, '/'), parts);
    }
  }

  /** Putting the first element back in front of the rest. */
  lemma ConsPieces(front: seq<string>, parts: seq<string>)
    requires |parts| > 0
    ensures front + [parts[0]] + parts[1..] == front + parts
  {
    assert parts == [parts[0]] + parts[1..];
  }

  /** Joining in two rounds places the components just as joining them at once. */
  lemma JoinNested(a: string, first: seq<string>, second: seq<string>)
    requires a != "" && a[|a| - 1] != '/'
    requires forall k :: 0 <= k < |first| ==> Component(first[k])
    requires forall k :: 0 <= k < |second| ==> Component(second[k])
    ensures Split(PathJoinAll(PathJoinAll(a, first), second), '/') == Split(a, '/') + first + second
  {
    JoinComponents(a, first);
    JoinComponents(PathJoinAll(a, first), second);
  }
}
