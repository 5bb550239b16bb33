/** Slash-separated project paths: cleaning, the generated roots and their hidden siblings
    (internal/compiler/materialize.go). */
module Paths {
  import opened Text

  const GENERATED_ROOT: string := "internal/forge_generated"
  const FRONTEND_ROOT: string := "frontend/src/forge_generated"
  const ROOTS: seq<string> := [GENERATED_ROOT, FRONTEND_ROOT]

  const EXTENSIONS_ROOT: string := "internal/extensions"
  const ARCHIVE_ROOT: string := ".forge/orphaned"

  predicate Slashless(e: string) { '/' !in e }

  ghost predicate AllSlashless(es: seq<string>) { forall i :: 0 <= i < |es| ==> Slashless(es[i]) }

  /** The elements with one more character in front. */
  function Cons(c: char, es: seq<string>): (r: seq<string>)
    requires es != []
    ensures r != [] && (AllSlashless(es) ==> AllSlashless(r))
  {
    if c == '/' then [""] + es else [[c] + es[0]] + es[1..]
  }

  /** strings.Split(p, "/") */
  function Elements(p: string): (es: seq<string>)
    ensures es != [] && AllSlashless(es)
  {
    if p == "" then [""]
    else Cons(p[0], Elements(p[1..]))
  }

  function Join(es: seq<string>): string
    requires es != []
  {
    if |es| == 1 then es[0] else es[0] + "/" + Join(es[1..])
  }

  lemma JoinCons(e: string, es: seq<string>)
    requires es != []
    ensures Join([e] + es) == e + "/" + Join(es)
  {
    assert ([e] + es)[1..] == es;
  }

  lemma JoinPrepend(c: char, es: seq<string>)
    requires es != []
    ensures Join([[c] + es[0]] + es[1..]) == [c] + Join(es)
  {
    assert ([[c] + es[0]] + es[1..])[1..] == es[1..];
  }

  lemma {:induction false} JoinOfElements(p: string)
    ensures Join(Elements(p)) == p
  {
    if p != "" {
      hide Join;
      JoinOfElements(p[1..]);
      var rest := Elements(p[1..]);
      JoinCons("", rest);
      JoinPrepend(p[0], rest);
      assert p == [p[0]] + p[1..];
    }
  }

  lemma {:induction false} ElementsOfSlashless(e: string)
    requires Slashless(e)
    ensures Elements(e) == [e]
  {
    if e != "" {
      assert e[0] in e && e == [e[0]] + e[1..];
      ElementsOfSlashless(e[1..]);
    }
  }

  lemma {:induction false} ElementsOfFirst(e: string, p: string)
    requires Slashless(e)
    ensures Elements(e + "/" + p) == [e] + Elements(p)
  {
    var s := e + "/" + p;
    if e == "" {
      assert s[1..] == p;
    } else {
      assert e[0] in e && e == [e[0]] + e[1..];
      ElementsOfFirst(e[1..], p);
      assert s[1..] == e[1..] + "/" + p;
    }
  }

  lemma {:induction false} ElementsOfJoin(es: seq<string>)
    requires es != [] && AllSlashless(es)
    ensures Elements(Join(es)) == es
  {
    if |es| == 1 {
      ElementsOfSlashless(es[0]);
    } else {
      ElementsOfJoin(es[1..]);
      ElementsOfFirst(es[0], Join(es[1..]));
    }
  }

  lemma JoinInjective(es: seq<string>, fs: seq<string>)
    requires es != [] && fs != [] && AllSlashless(es) && AllSlashless(fs) && Join(es) == Join(fs)
    ensures es == fs
  {
    ElementsOfJoin(es);
    ElementsOfJoin(fs);
  }

  // ----- path.Clean on a relative path -----

  /** An element that names something in the directory it stands in. */
  predicate Proper(e: string) { e != "" && e != "." && e != ".." }

  function CleanStep(stack: seq<string>, e: string): seq<string> {
    if e == "" || e == "." then stack
    else if e == ".." && stack != [] && stack[|stack| - 1] != ".." then stack[..|stack| - 1]
    else stack + [e]
  }

  function CleanElements(stack: seq<string>, es: seq<string>): seq<string>
    decreases |es|
  {
    if es == [] then stack else CleanElements(CleanStep(stack, es[0]), es[1..])
  }

  function Clean(p: string): string {
    var stack := CleanElements([], Elements(p));
    if stack == [] then "." else Join(stack)
  }

  ghost predicate AllProper(es: seq<string>) { forall i :: 0 <= i < |es| ==> Proper(es[i]) }

  /** Parent steps first, then proper elements. */
  ghost predicate CleanShape(es: seq<string>) {
    && AllSlashless(es)
    && (forall i :: 0 <= i < |es| ==> es[i] == ".." || Proper(es[i]))
    && (forall i, j :: 0 <= i < j < |es| && es[j] == ".." ==> es[i] == "..")
  }

  lemma {:induction false} CleanKeepsProper(stack: seq<string>, es: seq<string>)
    requires AllProper(es)
    ensures CleanElements(stack, es) == stack + es
    decreases |es|
  {
    if es != [] {
      CleanKeepsProper(stack + [es[0]], es[1..]);
      assert es == [es[0]] + es[1..];
    }
  }

  lemma {:induction false} CleanHasShape(stack: seq<string>, es: seq<string>)
    requires CleanShape(stack) && AllSlashless(es)
    ensures CleanShape(CleanElements(stack, es))
    decreases |es|
  {
    if es != [] { CleanHasShape(CleanStep(stack, es[0]), es[1..]); }
  }

  // ----- The guard on generated paths -----

  /** underRoot: the path relative to a root it lies within. */
  function UnderRoot(p: string, root: string): Option<string> {
    if p == root then Some("")
    else if root + "/" <= p then Some(p[|root| + 1..])
    else None
  }

  predicate Within(p: string, root: string) { UnderRoot(p, root).Some? }

  /** checkGeneratedPath reports no error. */
  predicate Accepted(p: string) {
    && p != ""
    && '\\' !in p
    && p[0] != '/'
    && Clean(p) == p
    && exists root :: root in ROOTS && Within(p, root)
  }

  lemma FirstElement(e: string, p: string)
    requires Slashless(e) && e + "/" <= p
    ensures Elements(p)[0] == e && Elements(p) == [e] + Elements(p[|e| + 1..])
  {
    ElementsOfFirst(e, p[|e| + 1..]);
    assert p == e + "/" + p[|e| + 1..];
  }

  lemma RootsBeginProperly(p: string, root: string)
    requires root in ROOTS && Within(p, root)
    ensures p != "" && p[0] != '/' && Proper(Elements(p)[0])
  {
    if root == GENERATED_ROOT {
      assert GENERATED_ROOT == "internal/" + "forge_generated";
      assert "internal/" <= p;
      FirstElement("internal", p);
    } else {
      assert FRONTEND_ROOT == "frontend/" + "src/forge_generated";
      assert "frontend/" <= p;
      FirstElement("frontend", p);
    }
  }

  /** The guard accepts exactly the paths that stay where they say: under a generated root,
      with no backslash and every element naming something. */
  lemma AcceptedExactly(p: string)
    ensures Accepted(p) <==>
      '\\' !in p && AllProper(Elements(p)) && exists root :: root in ROOTS && Within(p, root)
  {
    var es := Elements(p);
    JoinOfElements(p);
    if AllProper(es) { CleanKeepsProper([], es); assert [] + es == es; }
    if Accepted(p) {
      var root :| root in ROOTS && Within(p, root);
      RootsBeginProperly(p, root);
      CleanHasShape([], es);
      var stack := CleanElements([], es);
      if stack == [] {
        ElementsOfSlashless(".");
        assert false;
      }
      ElementsOfJoin(stack);
      assert stack == es;
    }
    if AllProper(es) && exists root :: root in ROOTS && Within(p, root) {
      var root :| root in ROOTS && Within(p, root);
      RootsBeginProperly(p, root);
    }
  }

  lemma ElementsCons(c: char, p: string)
    ensures Elements([c] + p) == Cons(c, Elements(p))
  {
    assert ([c] + p)[1..] == p;
  }

  lemma ConsJoined(c: char, es: seq<string>, tail: seq<string>)
    requires es != []
    ensures Cons(c, es + tail) == Cons(c, es) + tail
  {
  }

  lemma {:induction false} ElementsOfJoined(a: string, b: string)
    ensures Elements(a + "/" + b) == Elements(a) + Elements(b)
  {
    if a == "" {
      ElementsCons('/', b);
      assert a + "/" + b == ['/'] + b;
    } else {
      hide Elements, Cons;
      var rest := a[1..];
      ElementsOfJoined(rest, b);
      ElementsCons(a[0], rest);
      ElementsCons(a[0], rest + "/" + b);
      assert a == [a[0]] + rest;
      assert a + "/" + b == [a[0]] + (rest + "/" + b);
      ConsJoined(a[0], Elements(rest), Elements(b));
    }
  }

  lemma BelowIsProper(p: string, root: string, rel: string)
    requires p == root + "/" + rel && AllProper(Elements(p))
    ensures AllProper(Elements(rel))
  {
    ElementsOfJoined(root, rel);
    var n := |Elements(root)|;
    forall i | 0 <= i < |Elements(rel)| ensures Proper(Elements(rel)[i]) {
      assert Elements(rel)[i] == Elements(p)[n + i];
    }
  }

  lemma UnderRootMeaning(p: string, root: string)
    ensures Within(p, root) && p != root ==> p == root + "/" + UnderRoot(p, root).value
  {
  }

  /** An accepted path that is not a root itself is staged strictly below its root, never
      climbing out of it. */
  lemma AcceptedStaysBelow(p: string, root: string)
    requires Accepted(p) && Within(p, root) && p != root
    ensures p == root + "/" + UnderRoot(p, root).value && AllProper(Elements(UnderRoot(p, root).value))
  {
    AcceptedExactly(p);
    UnderRootMeaning(p, root);
    BelowIsProper(p, root, UnderRoot(p, root).value);
  }

  lemma ElementsOfPair(a: string, b: string)
    requires Slashless(a) && Slashless(b)
    ensures Elements(a + "/" + b) == [a, b]
  {
    ElementsOfSlashless(b);
    ElementsOfFirst(a, b);
  }

  lemma GeneratedElements()
    ensures Elements(GENERATED_ROOT) == ["internal", "forge_generated"]
  {
    hide Elements;
    ElementsOfPair("internal", "forge_generated");
    assert GENERATED_ROOT == "internal" + "/" + "forge_generated";
  }

  lemma FrontendElements()
    ensures Elements(FRONTEND_ROOT) == ["frontend", "src", "forge_generated"]
  {
    hide Elements;
    ElementsOfPair("src", "forge_generated");
    ElementsOfFirst("frontend", "src" + "/" + "forge_generated");
    assert FRONTEND_ROOT == "frontend" + "/" + ("src" + "/" + "forge_generated");
  }

  lemma UserElements()
    ensures Elements(EXTENSIONS_ROOT) == ["internal", "extensions"]
    ensures Elements(ARCHIVE_ROOT) == [".forge", "orphaned"]
  {
    hide Elements;
    ElementsOfPair("internal", "extensions");
    assert EXTENSIONS_ROOT == "internal" + "/" + "extensions";
    ElementsOfPair(".forge", "orphaned");
    assert ARCHIVE_ROOT == ".forge" + "/" + "orphaned";
  }

  lemma RootsApart(p: string)
    ensures !Within(p, GENERATED_ROOT) || !Within(p, FRONTEND_ROOT)
  {
    if Within(p, GENERATED_ROOT) { assert p[0] == GENERATED_ROOT[0] == 'i'; }
    if Within(p, FRONTEND_ROOT) { assert p[0] == FRONTEND_ROOT[0] == 'f'; }
  }

  // ----- Staging and retired siblings -----

  const STAGING: string := ".forge-staging"
  const RETIRED: string := ".forge-old"

  /** hiddenSibling: the same parent, a dotted base and a suffix. */
  function HiddenSibling(p: string, suffix: string): string {
    var es := Elements(p);
    var n := |es| - 1;
    Join(es[..n] + ["." + es[n] + suffix])
  }

  function Staging(root: string): string { HiddenSibling(root, STAGING) }

  function Retired(root: string): string { HiddenSibling(root, RETIRED) }

  /** Neither path is the other or lies inside it. */
  ghost predicate Apart(p: string, q: string) {
    !(Elements(p) <= Elements(q)) && !(Elements(q) <= Elements(p))
  }

  lemma ApartAt(p: string, q: string, k: nat)
    requires k < |Elements(p)| && k < |Elements(q)| && Elements(p)[k] != Elements(q)[k]
    ensures Apart(p, q)
  {
  }

  /** Everything a materialization touches. */
  const TOUCHED: seq<string> := [
    GENERATED_ROOT, Staging(GENERATED_ROOT), Retired(GENERATED_ROOT),
    FRONTEND_ROOT, Staging(FRONTEND_ROOT), Retired(FRONTEND_ROOT)]

  lemma SiblingElements(root: string, suffix: string)
    requires Slashless(suffix)
    ensures
      var es, n := Elements(root), |Elements(root)| - 1;
      Elements(HiddenSibling(root, suffix)) == es[..n] + ["." + es[n] + suffix]
  {
    var es := Elements(root);
    var n := |es| - 1;
    assert Slashless(es[n]);
    ElementsOfJoin(es[..n] + ["." + es[n] + suffix]);
  }

  lemma HiddenNames()
    ensures "." + "forge_generated" + STAGING == ".forge_generated.forge-staging"
    ensures "." + "forge_generated" + RETIRED == ".forge_generated.forge-old"
    ensures Slashless(STAGING) && Slashless(RETIRED)
  {
  }

  lemma GeneratedSiblings()
    ensures Elements(Staging(GENERATED_ROOT)) == ["internal", ".forge_generated.forge-staging"]
    ensures Elements(Retired(GENERATED_ROOT)) == ["internal", ".forge_generated.forge-old"]
  {
    hide Elements, HiddenSibling, STAGING, RETIRED;
    HiddenNames();
    GeneratedElements();
    SiblingElements(GENERATED_ROOT, STAGING);
    SiblingElements(GENERATED_ROOT, RETIRED);
  }

  lemma FrontendSiblings()
    ensures Elements(Staging(FRONTEND_ROOT)) == ["frontend", "src", ".forge_generated.forge-staging"]
    ensures Elements(Retired(FRONTEND_ROOT)) == ["frontend", "src", ".forge_generated.forge-old"]
  {
    hide Elements, HiddenSibling, STAGING, RETIRED;
    HiddenNames();
    FrontendElements();
    SiblingElements(FRONTEND_ROOT, STAGING);
    SiblingElements(FRONTEND_ROOT, RETIRED);
  }

  /** The six directories a materialization touches lie apart from one another and from the
      user's extension and archive trees, so a tree operation on one never reaches another. */
  lemma TouchedApart(i: nat, j: nat)
    requires i < |TOUCHED| && j < |TOUCHED|
    ensures i != j ==> Apart(TOUCHED[i], TOUCHED[j])
    ensures Apart(TOUCHED[i], EXTENSIONS_ROOT) && Apart(TOUCHED[i], ARCHIVE_ROOT)
  {
    hide Elements, HiddenSibling, Staging, Retired;
    GeneratedElements();
    FrontendElements();
    UserElements();
    GeneratedSiblings();
    FrontendSiblings();
    assert "internal"[0] == 'i' && "frontend"[0] == 'f' && ".forge"[0] == '.';
    assert "forge_generated"[0] == 'f' && "extensions"[0] == 'e';
    assert ".forge_generated.forge-staging"[0] == '.' && ".forge_generated.forge-old"[0] == '.';
    assert |".forge_generated.forge-staging"| != |".forge_generated.forge-old"|;
    if i != j { ApartAt(TOUCHED[i], TOUCHED[j], if i < 3 && j < 3 then 1 else if i >= 3 && j >= 3 then 2 else 0); }
    ApartAt(TOUCHED[i], EXTENSIONS_ROOT, if i < 3 then 1 else 0);
    ApartAt(TOUCHED[i], ARCHIVE_ROOT, 0);
  }

  lemma SlotsDistinct()
    ensures Distinct(TOUCHED)
    ensures forall root :: root in ROOTS ==> root != Staging(root) && Staging(root) != Retired(root) && root != Retired(root)
  {
    hide Elements, HiddenSibling, Staging, Retired;
    forall i, j | 0 <= i < j < |TOUCHED| ensures TOUCHED[i] != TOUCHED[j] {
      TouchedApart(i, j);
    }
    assert TOUCHED[0] != TOUCHED[1] && TOUCHED[1] != TOUCHED[2] && TOUCHED[0] != TOUCHED[2];
    assert TOUCHED[3] != TOUCHED[4] && TOUCHED[4] != TOUCHED[5] && TOUCHED[3] != TOUCHED[5];
  }
}
