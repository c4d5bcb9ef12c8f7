/** The catalog vocabulary shared by the resolver and the status feed. */
module Catalog {

  datatype Kind = Persona | Skill | Flow | MemoryProfile

  datatype State = Available | Withdrawn | Tombstoned | Revoked
  {
    function Permits(next: State): bool {
      match this
      case Available | Withdrawn => true
      case Revoked => next.Revoked? || next.Tombstoned?
      case Tombstoned => next.Tombstoned?
    }
  }

  /** The separator of a package name and a version text: `name@version`. */
  function VersionKey(name: string, version: string): string {
    name + "@" + version
  }

  lemma LaterSeparator(n1: string, v1: string, n2: string, v2: string)
    requires VersionKey(n1, v1) == VersionKey(n2, v2) && |n1| < |n2|
    ensures '@' in v1
  {
    var k := VersionKey(n1, v1);
    assert k[|n2|] == '@' && k[|n2|] == v1[|n2| - |n1| - 1];
  }

  /** Version texts hold no `@`, so the joined key determines both parts. */
  lemma VersionKeyInjective(n1: string, v1: string, n2: string, v2: string)
    requires '@' !in v1 && '@' !in v2
    requires VersionKey(n1, v1) == VersionKey(n2, v2)
    ensures n1 == n2 && v1 == v2
  {
    if |n1| < |n2| {
      LaterSeparator(n1, v1, n2, v2);
    } else if |n2| < |n1| {
      LaterSeparator(n2, v2, n1, v1);
    } else {
      var k := VersionKey(n1, v1);
      assert k[..|n1|] == n1 && k[..|n2|] == n2;
      assert k[|n1| + 1..] == v1 && k[|n2| + 1..] == v2;
    }
  }
}
