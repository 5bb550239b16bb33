/** The paths the generator emits (internal/compiler/compile.go, internal/compiler/gen): for a
    spec that passes the package guards they are pairwise distinct and all accepted by
    Materialize, so both duplicate guards are unreachable. */
module GenPaths {
  import opened Text
  import opened Names
  import opened Spec
  import opened Packages

  // ----- Component names -----

  function UpperOf(c: char): char { if Lower(c) then (c as int - 32) as char else c }

  /** What pascalSlug writes for the rest of a slug, at the start of a part or inside one. */
  function Pascal(start: bool, s: string): string
    decreases s
  {
    if s == "" then ""
    else if s[0] == '-' then Pascal(true, s[1..])
    else
      (if !start then [s[0]] else if Digit(s[0]) then ['_', s[0]] else [UpperOf(s[0])]) + Pascal(false, s[1..])
  }

  function PascalSlug(slug: string): string { Pascal(true, slug) }

  /** Reads a component name back: capitals and underscores mark where a part began. */
  function Unpascal(first: bool, s: string): string {
    if s == "" then ""
    else if Upper(s[0]) then (if first then "" else "-") + [LowerOf(s[0])] + Unpascal(false, s[1..])
    else if s[0] == '_' then (if first then "" else "-") + Unpascal(false, s[1..])
    else [s[0]] + Unpascal(false, s[1..])
  }

  ghost predicate SlugTail(start: bool, s: string) {
    && (forall i :: 0 <= i < |s| ==> WordChar(s[i], '-'))
    && (forall i :: 0 <= i < |s| - 1 ==> s[i] != '-' || s[i + 1] != '-')
    && (s != "" ==> s[|s| - 1] != '-')
    && (start ==> s != "" && s[0] != '-')
  }

  lemma {:induction false} UnpascalTail(start: bool, s: string)
    requires SlugTail(start, s)
    ensures Unpascal(false, Pascal(start, s)) == (if start then "-" else "") + s
    decreases s
  {
    if s != "" {
      var rest := s[1..];
      assert s == [s[0]] + rest;
      SlugTailRest(start, s);
      if s[0] == '-' {
        UnpascalTail(true, rest);
      } else {
        UnpascalTail(false, rest);
        UnpascalPart(start, s[0], Pascal(false, rest));
      }
    }
  }

  lemma SlugTailRest(start: bool, s: string)
    requires s != "" && SlugTail(start, s)
    ensures WordChar(s[0], '-') && SlugTail(s[0] == '-', s[1..])
  {
    assert forall i :: 0 <= i < |s[1..]| ==> s[1..][i] == s[i + 1];
  }

  lemma UnpascalPart(start: bool, c: char, out: string)
    requires Lower(c) || Digit(c)
    ensures
      var head := if !start then [c] else if Digit(c) then ['_', c] else [UpperOf(c)];
      Unpascal(false, head + out) == (if start then "-" else "") + [c] + Unpascal(false, out)
  {
    assert ([c] + out)[1..] == out;
    if start {
      if Digit(c) { assert (['_', c] + out)[1..] == [c] + out; }
      else { assert ([UpperOf(c)] + out)[1..] == out; }
    }
  }

  /** pascalSlug has a left inverse on valid slugs. */
  lemma PascalReadsBack(slug: string)
    requires IsSlug(slug)
    ensures Unpascal(true, PascalSlug(slug)) == slug
  {
    var rest := slug[1..];
    assert slug == [slug[0]] + rest;
    assert forall i :: 0 <= i < |rest| ==> rest[i] == slug[i + 1];
    UnpascalTail(false, rest);
    assert ([UpperOf(slug[0])] + Pascal(false, rest))[1..] == Pascal(false, rest);
  }

  function Suffix(kind: PageType): string {
    match kind
    case ResourceDetail => "DetailPage"
    case ResourceForm => "FormPage"
    case ResourceTable => "TablePage"
    case DashboardPage => "DashboardPage"
    case UnknownPage(_) => ""
  }

  function Component(p: Page): string { PascalSlug(p.slug) + Suffix(p.kind) }

  /** Pages with different slugs never share a component name, whatever their types. */
  lemma ComponentsDiffer(p: Page, q: Page)
    requires IsSlug(p.slug) && IsSlug(q.slug) && !p.kind.UnknownPage? && !q.kind.UnknownPage?
    requires Component(p) == Component(q)
    ensures p.slug == q.slug && p.kind == q.kind
  {
    var x, a, b := Component(p), Suffix(p.kind), Suffix(q.kind);
    assert x[|x| - 5] == a[|a| - 5] == b[|b| - 5];
    assert p.kind == q.kind;
    assert PascalSlug(p.slug) == x[..|x| - |a|] == PascalSlug(q.slug);
    PascalReadsBack(p.slug);
    PascalReadsBack(q.slug);
  }

  /** strings.Split(slug, "-") */
  function Parts(slug: string): (parts: seq<string>)
    ensures parts != [] && forall i :: 0 <= i < |parts| ==> '-' !in parts[i]
  {
    if slug == "" then [""]
    else
      var rest := Parts(slug[1..]);
      if slug[0] == '-' then [""] + rest else [[slug[0]] + rest[0]] + rest[1..]
  }

  function Rendered(part: string): string {
    if part == "" then ""
    else if Digit(part[0]) then "_" + part
    else [UpperOf(part[0])] + part[1..]
  }

  function RenderedAll(parts: seq<string>): string {
    if parts == [] then "" else Rendered(parts[0]) + RenderedAll(parts[1..])
  }

  lemma {:induction false} PascalOfParts(start: bool, slug: string)
    ensures
      var parts := Parts(slug);
      Pascal(start, slug) == (if start then Rendered(parts[0]) else parts[0]) + RenderedAll(parts[1..])
    decreases slug
  {
    if slug != "" {
      var rest := Parts(slug[1..]);
      if slug[0] == '-' {
        PascalOfParts(true, slug[1..]);
        assert Parts(slug)[1..] == rest;
        assert RenderedAll(rest) == Rendered(rest[0]) + RenderedAll(rest[1..]);
      } else {
        PascalOfParts(false, slug[1..]);
        var part := [slug[0]] + rest[0];
        assert Parts(slug)[1..] == rest[1..] && part[1..] == rest[0];
        assert "_" + part == ['_', slug[0]] + rest[0];
      }
    }
  }

  method RenderPart(b: string, part: string) returns (out: string)
    ensures out == b + Rendered(part)
  {
    if part == "" { return b; }
    if Digit(part[0]) {
      out := b + "_";
      out := out + part;
    } else {
      out := b + [UpperOf(part[0])];
      out := out + part[1..];
    }
  }

  lemma RenderedFrom(parts: seq<string>, i: nat)
    requires i < |parts|
    ensures RenderedAll(parts[i..]) == Rendered(parts[i]) + RenderedAll(parts[i + 1..])
  {
    assert parts[i..][1..] == parts[i + 1..];
  }

  method RenderSlug(slug: string) returns (out: string)
    ensures out == PascalSlug(slug)
  {
    hide Rendered, RenderedAll, Pascal, Parts;
    out := "";
    var parts := Parts(slug);
    assert parts[0..] == parts;
    for i := 0 to |parts|
      invariant out + RenderedAll(parts[i..]) == RenderedAll(parts)
    {
      RenderedFrom(parts, i);
      out := RenderPart(out, parts[i]);
    }
    RenderedNone(parts);
    RenderedFrom(parts, 0);
    PascalOfParts(true, slug);
  }

  lemma RenderedNone(parts: seq<string>)
    ensures RenderedAll(parts[|parts|..]) == ""
  {
  }
}
