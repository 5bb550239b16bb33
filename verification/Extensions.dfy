/** What the ABI classification is for: user extension code keeps typechecking. A program is
    what the generated packages let user code say: accessor and mutator calls, field
    references, and one Hooks type a resource carrying the stub's compile-time assertion that
    it satisfies the generated contract. */
module Extensions {
  import opened Text
  import opened Spec
  import opened WellFormed
  import opened Abi
  import opened Classify

  datatype Use =
    | ReadsField(typeName: string, symbol: string, goType: string)
    | SetsField(typeName: string, symbol: string, goType: string)
    | RefersToField(typeName: string, symbol: string)
    | NamesType(typeName: string)
    /** A user type asserted to implement the generated view interface, a test double say. */
    | ImplementsView(typeName: string, accessors: set<FieldABI>)

  /** Hook implementations are kept by the type name whose extension package holds them. */
  datatype Program = Program(uses: set<Use>, hooks: map<string, map<HookEvent, string>>)

  /** The row a generated type name denotes. */
  ghost predicate Denotes(a: ABI, typeName: string, row: ResourceABI) {
    row in a && row.typeName == typeName
  }

  ghost predicate HasAccessor(row: ResourceABI, symbol: string, goType: string) {
    exists f :: f in row.fields && row.fields[f] == FieldABI(symbol, goType)
  }

  ghost predicate HasSymbol(row: ResourceABI, symbol: string) {
    exists f :: f in row.fields && row.fields[f].symbol == symbol
  }

  ghost predicate CoversView(row: ResourceABI, accessors: set<FieldABI>) {
    forall f :: f in row.fields ==> row.fields[f] in accessors
  }

  ghost predicate Serves(row: ResourceABI, u: Use) {
    match u
    case ReadsField(_, symbol, goType) => HasAccessor(row, symbol, goType)
    case SetsField(_, symbol, goType) => HasAccessor(row, symbol, goType)
    case RefersToField(_, symbol) => HasSymbol(row, symbol)
    case NamesType(_) => true
    case ImplementsView(_, accessors) => CoversView(row, accessors)
  }

  ghost predicate UseChecks(a: ABI, u: Use) {
    exists row :: Denotes(a, u.typeName, row) && Serves(row, u)
  }

  /** The methods satisfy the contract interface of a resource that has one. */
  ghost predicate Satisfies(row: ResourceABI, methods: map<HookEvent, string>) {
    row.hooks != map[] && forall e :: e in row.hooks ==> e in methods && methods[e] == row.hooks[e]
  }

  /** Every use resolves, every Hooks type meets its contract, and the composition root finds
      a Hooks type for every hooked resource. */
  ghost predicate Typechecks(a: ABI, p: Program) {
    && (forall u :: u in p.uses ==> UseChecks(a, u))
    && (forall t :: t in p.hooks ==> exists row :: Denotes(a, t, row) && Satisfies(row, p.hooks[t]))
    && (forall row :: row in a && row.hooks != map[] ==> row.typeName in p.hooks)
  }

  function StubsFor(a: ABI, p: Program): map<string, map<HookEvent, string>> {
    if a == [] then map[]
    else
      var last := a[|a| - 1];
      var m := StubsFor(a[..|a| - 1], p);
      if last.hooks != map[] && last.typeName !in p.hooks then m[last.typeName := last.hooks] else m
  }

  /** WriteStubs: a stub for every hooked resource whose file does not exist; files that do
      exist are left alone. */
  function WithStubs(a: ABI, p: Program): Program {
    p.(hooks := StubsFor(a, p) + p.hooks)
  }

  ghost predicate HasContract(a: ABI, typeName: string, hooks: map<HookEvent, string>) {
    hooks != map[] && exists row :: Denotes(a, typeName, row) && row.hooks == hooks
  }

  lemma {:induction false} StubsMeetContracts(a: ABI, p: Program)
    ensures forall t :: t in StubsFor(a, p) ==> t !in p.hooks && HasContract(a, t, StubsFor(a, p)[t])
  {
    if a != [] {
      var n := |a| - 1;
      var init, last := a[..n], a[n];
      assert a == init + [last];
      StubsMeetContracts(init, p);
      assert Denotes(a, last.typeName, last);
      forall t | t in StubsFor(init, p) ensures HasContract(a, t, StubsFor(init, p)[t]) {
        var row :| Denotes(init, t, row) && row.hooks == StubsFor(init, p)[t];
        assert Denotes(a, t, row);
      }
    }
  }

  lemma {:induction false} ContractsHaveStubs(a: ABI, p: Program)
    ensures forall row :: row in a && row.hooks != map[] && row.typeName !in p.hooks ==> row.typeName in StubsFor(a, p)
  {
    if a != [] {
      var n := |a| - 1;
      assert a == a[..n] + [a[n]];
      ContractsHaveStubs(a[..n], p);
    }
  }

  lemma DenotesOne(a: ABI, t: string, x: ResourceABI, y: ResourceABI)
    requires TypesDistinct(a) && Denotes(a, t, x) && Denotes(a, t, y)
    ensures x == y
  {
    var i :| 0 <= i < |a| && a[i] == x;
    var j :| 0 <= j < |a| && a[j] == y;
  }

  /** Under a non-breaking move every current row has a row of the same type that keeps it. */
  lemma KeptRow(a: ABI, b: ABI, row: ResourceABI) returns (kept: ResourceABI)
    requires Canonical(a) && NonBreaking(a, b) && row in a
    ensures kept in b && kept.id == row.id && kept.typeName == row.typeName && KeepsRow(row, kept)
  {
    var i :| 0 <= i < |a| && a[i] == row;
    IndexOfCanonical(a, i);
    IndexMeaning(b);
    kept := IndexResources(b)[row.id];
  }

  /** Accessors a faked view would have to gain. */
  ghost predicate FakesCover(a: ABI, b: ABI, p: Program) {
    forall u, x, y :: u in p.uses && u.ImplementsView? && Denotes(a, u.typeName, x) && Denotes(b, u.typeName, y) ==>
      forall f :: f in y.fields && f !in x.fields ==> y.fields[f] in u.accessors
  }

  lemma UseSurvives(a: ABI, b: ABI, p: Program, u: Use)
    requires Canonical(a) && TypesDistinct(a) && TypesDistinct(b) && NonBreaking(a, b)
    requires u in p.uses && UseChecks(a, u)
    ensures !u.ImplementsView? ==> UseChecks(b, u)
    ensures u.ImplementsView? && FakesCover(a, b, p) ==> UseChecks(b, u)
  {
    var row :| Denotes(a, u.typeName, row) && Serves(row, u);
    var kept := KeptRow(a, b, row);
    assert Denotes(b, u.typeName, kept);
    match u {
      case ReadsField(_, symbol, goType) =>
        var f :| f in row.fields && row.fields[f] == FieldABI(symbol, goType);
        assert HasAccessor(kept, symbol, goType);
      case SetsField(_, symbol, goType) =>
        var f :| f in row.fields && row.fields[f] == FieldABI(symbol, goType);
        assert HasAccessor(kept, symbol, goType);
      case RefersToField(_, symbol) =>
        var f :| f in row.fields && row.fields[f].symbol == symbol;
        assert HasSymbol(kept, symbol);
      case NamesType(_) =>
      case ImplementsView(_, accessors) =>
        if FakesCover(a, b, p) {
          forall f | f in kept.fields ensures kept.fields[f] in accessors {
            if f in row.fields { assert kept.fields[f] == row.fields[f]; }
          }
          assert CoversView(kept, accessors);
        }
    }
  }

  /** Hook implementations survive, and every contract the candidate introduces has a stub. */
  lemma HooksSurvive(a: ABI, b: ABI, p: Program)
    requires Canonical(a) && TypesDistinct(a) && TypesDistinct(b) && NonBreaking(a, b) && Typechecks(a, p)
    ensures var q := WithStubs(b, p);
      && (forall t :: t in q.hooks ==> exists row :: Denotes(b, t, row) && Satisfies(row, q.hooks[t]))
      && (forall row :: row in b && row.hooks != map[] ==> row.typeName in q.hooks)
  {
    hide UseChecks, NonBreaking;
    var q := WithStubs(b, p);
    StubsMeetContracts(b, p);
    ContractsHaveStubs(b, p);
    forall t | t in q.hooks ensures exists row :: Denotes(b, t, row) && Satisfies(row, q.hooks[t]) {
      if t in p.hooks {
        var row :| Denotes(a, t, row) && Satisfies(row, p.hooks[t]);
        var kept := KeptRow(a, b, row);
        assert Denotes(b, t, kept) && Satisfies(kept, q.hooks[t]);
      } else {
        var row :| Denotes(b, t, row) && row.hooks == q.hooks[t];
        assert Satisfies(row, q.hooks[t]);
      }
    }
  }

  /** Extension soundness. After a neutral or additive move, user code that typechecked still
      typechecks, with fresh stubs for newly introduced contracts, exactly when no type that
      implements a generated view lacks an accessor its resource gained. */
  lemma ExtensionSoundness(a: ABI, b: ABI, p: Program)
    requires Canonical(a) && TypesDistinct(a) && TypesDistinct(b)
    requires NonBreaking(a, b) && Typechecks(a, p)
    ensures Typechecks(b, WithStubs(b, p)) <==> FakesCover(a, b, p)
  {
    hide NonBreaking, UseChecks, FakesCover, StubsFor, Canonical;
    HooksSurvive(a, b, p);
    if FakesCover(a, b, p) {
      forall u | u in p.uses ensures UseChecks(b, u) {
        UseSurvives(a, b, p, u);
      }
    }
    if Typechecks(b, WithStubs(b, p)) {
      CheckedFakesCover(a, b, p);
    }
  }

  lemma CheckedFakesCover(a: ABI, b: ABI, p: Program)
    requires TypesDistinct(b) && forall u :: u in p.uses ==> UseChecks(b, u)
    ensures FakesCover(a, b, p)
  {
    hide HasAccessor, HasSymbol, TypesDistinct;
    forall u, x, y | u in p.uses && u.ImplementsView? && Denotes(a, u.typeName, x) && Denotes(b, u.typeName, y)
      ensures forall f :: f in y.fields && f !in x.fields ==> y.fields[f] in u.accessors
    {
      assert UseChecks(b, u);
      var row :| Denotes(b, u.typeName, row) && Serves(row, u);
      DenotesOne(b, u.typeName, row, y);
    }
  }

  /** Accessor, mutator and field-reference uses with asserted hooks never break: the claim of
      the classification for programs that implement no view themselves. */
  lemma NoFakesNoBreakage(a: ABI, b: ABI, p: Program)
    requires Canonical(a) && TypesDistinct(a) && TypesDistinct(b)
    requires NonBreaking(a, b) && Typechecks(a, p)
    requires forall u :: u in p.uses ==> !u.ImplementsView?
    ensures Typechecks(b, WithStubs(b, p))
  {
    ExtensionSoundness(a, b, p);
  }

  /** Adding one field is classed additive, yet it breaks a user type that implemented the view. */
  lemma AddedFieldBreaksAFake()
    ensures var a := [ResourceABI("r", "Customer", map[], map[])];
            var b := [ResourceABI("r", "Customer", map["f" := FieldABI("Email", "string")], map[])];
            var p := Program({ImplementsView("Customer", {})}, map[]);
            Canonical(a) && Canonical(b) && NonBreaking(a, b) && Typechecks(a, p) && !Typechecks(b, WithStubs(b, p))
  {
    var email := FieldABI("Email", "string");
    var a := [ResourceABI("r", "Customer", map[], map[])];
    var b := [ResourceABI("r", "Customer", map["f" := email], map[])];
    var p := Program({ImplementsView("Customer", {})}, map[]);
    assert a[..0] == [] && b[..0] == [];
    assert IndexResources([]) == map[];
    assert IndexResources(a) == map["r" := a[0]] && IndexResources(b) == map["r" := b[0]];
    assert Denotes(a, "Customer", a[0]) && CoversView(a[0], {});
    assert UseChecks(a, ImplementsView("Customer", {}));
    assert StubsFor([], p) == map[];
    assert WithStubs(b, p).uses == p.uses;
    assert Denotes(b, "Customer", b[0]) && "f" in b[0].fields;
    assert !UseChecks(b, ImplementsView("Customer", {})) by {
      forall row | Denotes(b, "Customer", row) ensures !Serves(row, ImplementsView("Customer", {})) {
        assert row == b[0];
      }
    }
    assert ImplementsView("Customer", {}) in p.uses;
  }

  // ----- ValidateCandidate and its runs -----

  datatype Toolchain = NoToolchain | Unavailable | Ready(typechecks: ProjectSpec -> bool)

  datatype Outcome = Failed | Accepted | Rejected | ToolchainUnavailable

  /** ValidateCandidate: neutral and additive moves are accepted without a toolchain; a
      breaking one only when the assembled workspace typechecks. `prepared` says whether the
      throwaway workspace could be assembled. */
  method ValidateCandidate(lib: Library, current: Option<ProjectSpec>, candidate: Option<ProjectSpec>,
                           workspace: string, mod: string, prepared: bool, tc: Toolchain)
    returns (outcome: Outcome)
    ensures !(Valid(lib, current) && Valid(lib, candidate)) ==> outcome == Failed
    ensures Valid(lib, current) && Valid(lib, candidate) ==>
      var nonBreaking := NonBreaking(AbiOf(current.value), AbiOf(candidate.value));
      && (nonBreaking ==> outcome == Accepted)
      && (!nonBreaking ==>
            && (outcome == ToolchainUnavailable <==> !tc.Ready?)
            && (outcome == Accepted <==>
                  tc.Ready? && workspace != "" && mod != "" && prepared && tc.typechecks(candidate.value))
            && (outcome == Rejected <==>
                  tc.Ready? && workspace != "" && mod != "" && prepared && !tc.typechecks(candidate.value)))
  {
    hide WellFormedSpec, NonBreaking, AbiOf;
    if current.None? || candidate.None? {
      return Failed;
    }
    var t := ClassifyEdit(lib, current, candidate);
    if t.None? {
      return Failed;
    }
    if !t.value.class_.Breaking? {
      return Accepted;
    }
    if !tc.Ready? {
      return ToolchainUnavailable;
    }
    if workspace == "" || mod == "" {
      return Failed;
    }
    if !prepared {
      return Failed;
    }
    if !tc.typechecks(candidate.value) {
      return Rejected;
    }
    return Accepted;
  }

  /** One accepted edit: non-breaking, after which stubs are written, or breaking and proved
      compatible by compiling the user's code as it stands. */
  ghost predicate AcceptedEdit(lib: Library, s: ProjectSpec, p: Program, t: ProjectSpec, q: Program) {
    && WellFormedSpec(lib, s) && WellFormedSpec(lib, t)
    && if NonBreaking(AbiOf(s), AbiOf(t)) then q == WithStubs(AbiOf(t), p)
       else q == p && Typechecks(AbiOf(t), p)
  }

  ghost predicate EditRun(lib: Library, specs: seq<ProjectSpec>, programs: seq<Program>) {
    && |specs| == |programs|
    && forall i :: 0 <= i < |specs| - 1 ==> AcceptedEdit(lib, specs[i], programs[i], specs[i + 1], programs[i + 1])
  }

  /** Over every run of accepted edits, user code nobody edited keeps typechecking. */
  lemma {:induction false} UneditedCodeKeepsTypechecking(lib: Library, specs: seq<ProjectSpec>, programs: seq<Program>, n: nat)
    requires EditRun(lib, specs, programs) && n < |specs|
    requires Typechecks(AbiOf(specs[0]), programs[0])
    requires forall u :: u in programs[0].uses ==> !u.ImplementsView?
    ensures Typechecks(AbiOf(specs[n]), programs[n]) && programs[n].uses == programs[0].uses
    ensures forall t :: t in programs[0].hooks ==> t in programs[n].hooks && programs[n].hooks[t] == programs[0].hooks[t]
  {
    hide WellFormedSpec, AbiOf, Typechecks, NonBreaking;
    if n > 0 {
      UneditedCodeKeepsTypechecking(lib, specs, programs, n - 1);
      assert AcceptedEdit(lib, specs[n - 1], programs[n - 1], specs[n], programs[n]);
      var a, b := AbiOf(specs[n - 1]), AbiOf(specs[n]);
      if NonBreaking(a, b) {
        ValidAbi(lib, specs[n - 1]);
        ValidAbi(lib, specs[n]);
        NoFakesNoBreakage(a, b, programs[n - 1]);
      }
    }
  }
}
