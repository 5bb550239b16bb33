/** Names derived for new entities: labels folded to snake or kebab case, then numbered until
    unused (resource.go, field.go, relationship.go and page.go of
    controlplane/internal/project). */
module FreshNames {
  import opened Text
  import opened Names
  import opened Spec

  // ----- Folding a label -----

  predicate Usable(c: char) { Lower(c) || Digit(c) }

  /** What the loop of snakeCase and kebabCase has written after a text. */
  function Folded(lib: Library, text: string, sep: char): string {
    if text == "" then ""
    else
      var n := |text| - 1;
      var out := Folded(lib, text[..n], sep);
      var c := lib.toLower(text[n]);
      if Usable(c) then out + [c]
      else if out != "" && out[|out| - 1] != sep then out + [sep]
      else out
  }

  function TrimLast(s: string, sep: char): string {
    if s != "" && s[|s| - 1] == sep then s[..|s| - 1] else s
  }

  function Fold(lib: Library, text: string, sep: char, prefix: char): string {
    var out := TrimLast(Folded(lib, text, sep), sep);
    if out != "" && Digit(out[0]) then [prefix, sep] + out else out
  }

  predicate Separator(sep: char) { sep == '_' || sep == '-' }

  /** Words and single separators, starting with a letter or digit. */
  ghost predicate Foldable(s: string, sep: char) {
    && (s != "" ==> Usable(s[0]))
    && (forall i :: 0 <= i < |s| ==> WordChar(s[i], sep))
    && (forall i :: 0 <= i < |s| - 1 ==> s[i] != sep || s[i + 1] != sep)
  }

  lemma {:induction false} FoldedShape(lib: Library, text: string, sep: char)
    requires Separator(sep)
    ensures Foldable(Folded(lib, text, sep), sep)
    ensures Folded(lib, text, sep) == "" <==> forall i :: 0 <= i < |text| ==> !Usable(lib.toLower(text[i]))
  {
    if text != "" {
      var n := |text| - 1;
      FoldedShape(lib, text[..n], sep);
      assert forall i :: 0 <= i < n ==> text[..n][i] == text[i];
    }
  }

  /** A folded label is empty exactly when the label has no usable character, and otherwise
      words joined by single separators. */
  lemma FoldIsName(lib: Library, text: string, sep: char, prefix: char)
    requires Separator(sep) && Lower(prefix)
    ensures Fold(lib, text, sep, prefix) != "" ==> JoinedWords(Fold(lib, text, sep, prefix), sep)
    ensures Fold(lib, text, sep, prefix) == "" <==> forall i :: 0 <= i < |text| ==> !Usable(lib.toLower(text[i]))
  {
    FoldedShape(lib, text, sep);
    var raw := Folded(lib, text, sep);
    var out := TrimLast(raw, sep);
    assert raw != "" ==> raw[0] != sep && out != "" && out[0] == raw[0];
    if out != "" {
      assert raw[|raw| - 1] == sep ==> |raw| >= 2 && raw[|raw| - 2] != sep;
      var r := Fold(lib, text, sep, prefix);
      if Digit(out[0]) {
        forall i | 0 <= i < |r| ensures WordChar(r[i], sep) {
          if i >= 2 { assert r[i] == out[i - 2]; }
        }
        forall i | 0 <= i < |r| - 1 ensures r[i] != sep || r[i + 1] != sep {
          if i >= 2 { assert r[i] == out[i - 2] && r[i + 1] == out[i - 1]; }
        }
      }
    }
  }

  lemma FoldedStep(lib: Library, text: string, c: char, sep: char)
    ensures
      var out, d := Folded(lib, text, sep), lib.toLower(c);
      Folded(lib, text + [c], sep) ==
        if Usable(d) then out + [d] else if out != "" && out[|out| - 1] != sep then out + [sep] else out
  {
    assert (text + [c])[..|text|] == text;
  }

  lemma {:induction false} FoldedSame(lib: Library, name: string, sep: char)
    requires Separator(sep) && Foldable(name, sep)
    requires forall i :: 0 <= i < |name| ==> lib.toLower(name[i]) == name[i]
    ensures Folded(lib, name, sep) == name
  {
    if name != "" {
      hide Folded;
      var n := |name| - 1;
      var init := name[..n];
      assert name == init + [name[n]];
      assert forall i :: 0 <= i < n ==> init[i] == name[i];
      FoldedSame(lib, init, sep);
      FoldedStep(lib, init, name[n], sep);
      assert WordChar(name[n], sep);
      assert !Usable(name[n]) ==> n > 0 && name[n - 1] != sep;
    } else {
      FoldedShape(lib, name, sep);
    }
  }

  /** Folding leaves a name that already is one as it is. */
  lemma FoldKeepsNames(lib: Library, name: string, sep: char, prefix: char)
    requires Separator(sep) && JoinedWords(name, sep)
    requires forall i :: 0 <= i < |name| ==> lib.toLower(name[i]) == name[i]
    ensures Fold(lib, name, sep, prefix) == name
  {
    FoldedSame(lib, name, sep);
  }

  method FoldText(lib: Library, text: string, sep: char, prefix: char) returns (out: string)
    ensures out == Fold(lib, text, sep, prefix)
    requires Separator(sep)
  {
    out := "";
    var pending := false;
    assert text[..0] == "";
    for i := 0 to |text|
      invariant out == Folded(lib, text[..i], sep)
      invariant pending <==> out != "" && out[|out| - 1] == sep
    {
      assert text[..i + 1][..i] == text[..i];
      var c := lib.toLower(text[i]);
      if Usable(c) {
        out := out + [c];
        pending := false;
      } else if out != "" && !pending {
        out := out + [sep];
        pending := true;
      }
    }
    assert text[..|text|] == text;
    if out != "" && out[|out| - 1] == sep { out := out[..|out| - 1]; }
    if out != "" && Digit(out[0]) { out := [prefix, sep] + out; }
  }

  // ----- Numbering until unused -----

  /** The n-th name tried: the base itself, then the base with 2, 3 and so on. */
  function Candidate(base: string, sep: char, tail: string, n: nat): string {
    if n <= 1 then base + tail else base + [sep] + Itoa(n) + tail
  }

  lemma CandidateInjective(base: string, sep: char, tail: string, m: nat, n: nat)
    requires 1 <= m < n
    ensures Candidate(base, sep, tail, m) != Candidate(base, sep, tail, n)
  {
    var k := |base|;
    var x, y := Candidate(base, sep, tail, m), Candidate(base, sep, tail, n);
    if m == 1 {
      assert |y| > |x|;
    } else if x == y {
      var p, q := base + [sep], tail;
      assert x == p + Itoa(m) + q && y == p + Itoa(n) + q;
      assert x[|p|..|x| - |q|] == Itoa(m) && y[|p|..|y| - |q|] == Itoa(n);
      ItoaInjective(m, n);
      assert false;
    }
  }

  /** The first name is the base with its ending; the n-th has n in decimal between them. */
  lemma CandidateReads(base: string, sep: char, tail: string, n: nat)
    ensures n <= 1 ==> Candidate(base, sep, tail, n) == base + tail
    ensures n >= 2 ==>
      var c := Candidate(base, sep, tail, n);
      var low, high := |base| + 1, |c| - |tail|;
      && low < high && c[..|base|] == base && c[|base|] == sep && c[high..] == tail
      && (forall i :: low <= i < high ==> Digit(c[i]))
      && DigitsValue(c[low..high]) == n
  {
    if n >= 2 {
      ItoaDenotes(n);
      var c := Candidate(base, sep, tail, n);
      var low, high := |base| + 1, |c| - |tail|;
      assert c[low..high] == Itoa(n);
      assert forall i :: low <= i < high ==> c[i] == c[low..high][i - low];
    }
  }

  ghost predicate Tried(base: string, sep: char, tail: string, taken: set<string>, n: nat) {
    forall k :: 1 <= k < n ==> Candidate(base, sep, tail, k) in taken
  }

  /** If the first n names are all taken, at least n names are. */
  lemma {:induction false} Pigeonhole(base: string, sep: char, tail: string, taken: set<string>, n: nat)
    requires Tried(base, sep, tail, taken, n + 1)
    ensures n <= |taken|
    decreases n
  {
    if n > 0 {
      var last := Candidate(base, sep, tail, n);
      forall k | 1 <= k < n ensures Candidate(base, sep, tail, k) in taken - {last} {
        CandidateInjective(base, sep, tail, k, n);
      }
      Pigeonhole(base, sep, tail, taken - {last}, n - 1);
    }
  }

  /** The numbering loop ends within one more step than there are names taken, on the first
      unused name. */
  method FirstFree(base: string, sep: char, tail: string, taken: set<string>) returns (name: string, ghost n: nat)
    ensures name !in taken && name == Candidate(base, sep, tail, n)
    ensures 1 <= n <= |taken| + 1 && Tried(base, sep, tail, taken, n)
  {
    name := base + tail;
    n := 1;
    var next := 2;
    Pigeonhole(base, sep, tail, taken, 0);
    while name in taken
      invariant 1 <= n <= |taken| + 1 && next == n + 1
      invariant name == Candidate(base, sep, tail, n) && Tried(base, sep, tail, taken, n)
      decreases |taken| + 1 - n
    {
      Pigeonhole(base, sep, tail, taken, n);
      name := base + [sep] + Itoa(next) + tail;
      n := next;
      next := next + 1;
    }
  }

  lemma CandidateIsName(base: string, sep: char, tail: string, n: nat)
    requires Separator(sep) && JoinedWords(base, sep) && (tail == "" || tail == [sep] + "id")
    ensures JoinedWords(Candidate(base, sep, tail, n), sep)
  {
    var c := Candidate(base, sep, tail, n);
    var digits := if n <= 1 then "" else [sep] + Itoa(n);
    assert c == base + digits + tail;
    forall i | 0 <= i < |c| ensures WordChar(c[i], sep) {
      if |base| <= i < |base| + |digits| { assert c[i] == digits[i - |base|]; }
      if i >= |base| + |digits| { assert c[i] == tail[i - |base| - |digits|]; }
    }
    forall i | 0 <= i < |c| - 1 ensures c[i] != sep || c[i + 1] != sep {
      if i + 1 < |base| { assert c[i] == base[i] && c[i + 1] == base[i + 1]; }
      else if i + 1 == |base| { assert c[i] == base[|base| - 1]; }
      else if |base| < i + 1 < |base| + |digits| { assert c[i + 1] == digits[i + 1 - |base|]; }
      else if i + 1 == |base| + |digits| { assert c[i] == digits[|digits| - 1]; }
      else { assert c[i + 1] == tail[i + 1 - |base| - |digits|]; }
    }
  }

  // ----- The four derivations -----

  ghost predicate FreshName(name: string, base: string, sep: char, tail: string, taken: set<string>) {
    && name !in taken
    && JoinedWords(name, sep)
    && exists n: nat :: 1 <= n <= |taken| + 1 && name == Candidate(base, sep, tail, n) && Tried(base, sep, tail, taken, n)
  }

  function ResourceStorages(rs: seq<Option<Resource>>): set<string> {
    set i | 0 <= i < |rs| && rs[i].Some? :: rs[i].value.storageName
  }

  function FieldStorages(fields: seq<Option<Field>>): set<string> {
    set i | 0 <= i < |fields| && fields[i].Some? :: fields[i].value.storageName
  }

  function PageSlugs(pages: seq<Option<Page>>): set<string> {
    set i | 0 <= i < |pages| && pages[i].Some? :: pages[i].value.slug
  }

  function OrElse(s: string, fallback: string): string { if s == "" then fallback else s }

  function ResourceBase(lib: Library, labelPlural: string, caption: string): string {
    OrElse(OrElse(Fold(lib, labelPlural, '_', 'r'), Fold(lib, caption, '_', 'r')), "resource")
  }

  method DeriveStorageName(lib: Library, labelPlural: string, caption: string, rs: seq<Option<Resource>>)
      returns (name: string)
    ensures FreshName(name, ResourceBase(lib, labelPlural, caption), '_', "", ResourceStorages(rs))
    ensures IsStorageName(name) <==> |name| <= 63
  {
    var base := FoldText(lib, labelPlural, '_', 'r');
    if base == "" { base := FoldText(lib, caption, '_', 'r'); }
    if base == "" { base := "resource"; }
    FoldIsName(lib, labelPlural, '_', 'r');
    FoldIsName(lib, caption, '_', 'r');
    var taken := ResourceStorages(rs);
    ghost var n: nat;
    name, n := FirstFree(base, '_', "", taken);
    CandidateIsName(base, '_', "", n);
  }

  method DeriveFieldStorageName(lib: Library, caption: string, fields: seq<Option<Field>>) returns (name: string)
    ensures FreshName(name, OrElse(Fold(lib, caption, '_', 'r'), "field"), '_', "", FieldStorages(fields))
    ensures IsStorageName(name) <==> |name| <= 63
  {
    var base := FoldText(lib, caption, '_', 'r');
    if base == "" { base := "field"; }
    FoldIsName(lib, caption, '_', 'r');
    ghost var n: nat;
    name, n := FirstFree(base, '_', "", FieldStorages(fields));
    CandidateIsName(base, '_', "", n);
  }

  method DeriveForeignKeyName(lib: Library, caption: string, fields: seq<Option<Field>>) returns (name: string)
    ensures FreshName(name, OrElse(Fold(lib, caption, '_', 'r'), "ref"), '_', "_id", FieldStorages(fields))
    ensures IsStorageName(name) <==> |name| <= 63
  {
    var base := FoldText(lib, caption, '_', 'r');
    if base == "" { base := "ref"; }
    FoldIsName(lib, caption, '_', 'r');
    ghost var n: nat;
    name, n := FirstFree(base, '_', "_id", FieldStorages(fields));
    CandidateIsName(base, '_', "_id", n);
  }

  method DerivePageSlug(lib: Library, caption: string, pages: seq<Option<Page>>) returns (slug: string)
    ensures FreshName(slug, OrElse(Fold(lib, caption, '-', 'p'), "page"), '-', "", PageSlugs(pages))
    ensures IsSlug(slug) <==> |slug| <= 63
  {
    var base := FoldText(lib, caption, '-', 'p');
    if base == "" { base := "page"; }
    FoldIsName(lib, caption, '-', 'p');
    ghost var n: nat;
    slug, n := FirstFree(base, '-', "", PageSlugs(pages));
    CandidateIsName(base, '-', "", n);
  }
}
