/** Package and directory names folded from code names (internal/compiler/gen/gen.go). */
module Packages {
  import opened Text
  import opened Names
  import opened Paths

  function LowerOf(c: char): char { if Upper(c) then (c as int + 32) as char else c }

  /** packageNameForCodeName: strings.ToLower, on the ASCII identifiers code names are. */
  function PackageName(codeName: string): (p: string)
    ensures |p| == |codeName| && forall i :: 0 <= i < |p| ==> p[i] == LowerOf(codeName[i])
  {
    seq(|codeName|, i requires 0 <= i < |codeName| => LowerOf(codeName[i]))
  }

  /** A folded identifier is one proper path element in lower case. */
  lemma PackageIsElement(codeName: string)
    requires IsExportedGoIdent(codeName)
    ensures Slashless(PackageName(codeName)) && Proper(PackageName(codeName))
    ensures '\\' !in PackageName(codeName) && '.' !in PackageName(codeName)
    ensures Lower(PackageName(codeName)[0])
  {
    var p := PackageName(codeName);
    assert Lower(p[0]);
    forall i | 0 <= i < |p| ensures IdentChar(p[i]) {
      assert IdentChar(codeName[i]);
    }
  }
}
