/** Stable identifiers (src/ids.rs): a digest of the parts joined by a zero byte. */
module Identifiers {
  predicate NulFree(s: string) { '\0' !in s }

  function Join(parts: seq<string>): string
  {
    if parts == [] then "" else if |parts| == 1 then parts[0] else parts[0] + "\0" + Join(parts[1..])
  }

  function StableHash(digest: string -> string, parts: seq<string>): string
  {
    digest(Join(parts))
  }

  /** Parts as the program uses them: at least one, and none with a zero byte. */
  predicate Clean(parts: seq<string>)
  {
    parts != [] && forall i | 0 <= i < |parts| :: NulFree(parts[i])
  }

  /** The hash tells clean part lists apart. */
  ghost predicate TellsApart(hash: seq<string> -> string)
  {
    forall a, b :: Clean(a) && Clean(b) && hash(a) == hash(b) ==> a == b
  }

  ghost predicate CollisionFree(digest: string -> string)
  {
    forall x, y :: digest(x) == digest(y) ==> x == y
  }

  /** Where the first part of a joined list ends. */
  lemma FirstPart(parts: seq<string>)
    requires Clean(parts)
    ensures parts[0] <= Join(parts)
    ensures |parts| == 1 ==> Join(parts) == parts[0]
    ensures |parts| > 1 ==> Clean(parts[1..]) && |parts[0]| < |Join(parts)| && Join(parts)[|parts[0]|] == '\0'
    ensures |parts| > 1 ==> Join(parts)[|parts[0]| + 1..] == Join(parts[1..])
  {
  }

  /** Clean lists are told apart by their join. */
  lemma {:induction false} JoinInjective(a: seq<string>, b: seq<string>)
    requires Clean(a) && Clean(b) && Join(a) == Join(b)
    ensures a == b
  {
    FirstPart(a);
    FirstPart(b);
    var s, x, y := Join(a), a[0], b[0];
    hide Join;
    assert |x| == |y|;
    assert x == s[..|x|] && y == s[..|x|];
    if |a| > 1 && |b| > 1 {
      JoinInjective(a[1..], b[1..]);
      assert a == [x] + a[1..] && b == [y] + b[1..];
    }
  }

  /** A digest without collisions makes a hash that tells clean lists apart. */
  lemma DigestTellsApart(digest: string -> string)
    requires CollisionFree(digest)
    ensures TellsApart(parts => StableHash(digest, parts))
  {
    forall a, b | Clean(a) && Clean(b) && StableHash(digest, a) == StableHash(digest, b) ensures a == b {
      JoinInjective(a, b);
    }
  }

  /** No digest tells all lists apart: a zero byte inside a part looks like a join. */
  lemma JoinIsAmbiguous(digest: string -> string)
    ensures StableHash(digest, ["a\0b"]) == StableHash(digest, ["a", "b"]) && ["a\0b"] != ["a", "b"]
  {
    assert ["a", "b"][1..] == ["b"];
    assert "a" + "\0" + "b" == "a\0b";
  }
}
