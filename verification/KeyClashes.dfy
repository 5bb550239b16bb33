/** Valid inputs on which creation, refactoring and the batch rename give a scalar the Go name of
    a relationship's key, so that the candidate is invalid. */
module KeyClashes {
  import opened Text
  import opened Names
  import opened Spec
  import opened WellFormed
  import opened Normalize
  import opened Ledger
  import opened Refactor
  import opened CodeNames
  import opened FieldCreation
  import opened Renames
  import opened BatchRenames
  import opened Samples

  /** A relationship Customer, whose key is called CustomerID in Go. */
  const CUSTOMER: Field := Relation('1', "Customer", "customer_id")

  /** A text labelled CustomerID, coded Email. */
  const EMAIL: Field := Scalar('2', "CustomerID", "Email", "email")

  const HEAD: ProjectSpec := OneField("Order", CUSTOMER)
  const ORDERS: ProjectSpec := TwoFields("Order", CUSTOMER, EMAIL)

  const FIELDS: Namespace := FieldNamespace(RESOURCE)

  const FROZEN: Table := map[
    (RESOURCE_NAMESPACE, "Order") := Entry(true, RESOURCE),
    (FIELDS, "Customer") := Entry(true, FieldIDOf('1')),
    (FIELDS, "Email") := Entry(true, FieldIDOf('2'))]

  lemma TheNames()
    ensures IsExportedGoIdent("Order") && NameFits("Customer", "customer_id") && NameFits("Email", "email")
    ensures "Email" != "Customer" && "Email" != "Customer" + "ID" && "email" != "customer_id"
    ensures "Customer" + "ID" == "CustomerID" && !IsBlank("CustomerID")
  {
    CodesAreLegal();
    ColumnsAreLegal();
    assert "Email"[0] == 'E' && "Customer"[0] == 'C' && "CustomerID"[0] == 'C' && !IsSpace('C');
  }

  lemma CodesAreLegal()
    ensures IsExportedGoIdent("Order") && IsExportedGoIdent("Customer") && IsExportedGoIdent("Email")
    ensures !IsReservedCodeName("Customer") && !IsReservedCodeName("Email")
  {
    assert "Order"[0] == 'O' && "Email"[0] == 'E' && "Customer"[0] == 'C' && |"Email"| == 5 && |"Customer"| == 8;
    assert "Model"[0] == 'M' && "CreatedAt"[1] == 'r';
  }

  lemma ColumnsAreLegal()
    ensures IsStorageName("customer_id") && !IsReservedStorageName("customer_id")
    ensures IsStorageName("email") && !IsReservedStorageName("email") && "email" != "customer_id"
  {
    assert "email"[0] == 'e' && |"customer_id"| == 11 && "created_at"[1] == 'r';
  }

  lemma HeadIsValid(lib: Library)
    ensures WellFormedSpec(lib, HEAD)
    ensures forall w :: w in AllIDs(HEAD) <==> w == PROJECT || w == RESOURCE || w == FieldIDOf('1')
  {
    hide WellFormedSpec, AllIDs, NameFits, FieldIDOf, PROJECT, RESOURCE, OneField;
    TheNames();
    OneFieldIsValid(lib, "Order", CUSTOMER);
  }

  lemma OrdersAreValid(lib: Library)
    ensures WellFormedSpec(lib, ORDERS)
  {
    hide WellFormedSpec, AllIDs, NameFits, FieldIDOf, PROJECT, RESOURCE, TwoFields, IsBlank;
    TheNames();
    TwoFieldsIsValid(lib, "Order", CUSTOMER, EMAIL);
  }

  lemma OrdersAgree()
    ensures Agrees(FROZEN, ORDERS.resources)
  {
    hide FieldIDOf, RESOURCE, TwoFields;
    TheNames();
    TwoFieldsHas("Order", CUSTOMER, EMAIL);
    IDsDiffer('1', '2');
    NamespacesDiffer(RESOURCE, RESOURCE);
  }

  // ----- The batch rename -----

  /** Email is renamed CustomerID, as its label says. */
  lemma BatchMeetsKey(lib: Library)
    ensures WellFormedSpec(lib, ORDERS) && Agrees(FROZEN, ORDERS.resources)
    ensures !WellFormedSpec(lib, ORDERS.(resources := NormalizeResources(lib, FROZEN, ORDERS.resources).1))
  {
    hide WellFormedSpec, Agrees, NormalizeResources, TwoFields, Takes, FieldIDOf, RESOURCE, Normal;
    TheNames();
    OrdersAreValid(lib);
    OrdersAgree();
    TwoFieldsHas("Order", CUSTOMER, EMAIL);
    CustomerIDIsNormal(lib);
    CustomerIsNormal(lib);
    SettledTakesItsOwn(lib, FROZEN, RESOURCE, ORDERS.resources[0].value.fields, 0);
    assert |"Customer"| == 8 && |"CustomerID"| == 10 && "Email"[0] == 'E' && "CustomerID"[0] == 'C';
    NormalizeBreaks(lib, ORDERS, FROZEN, 0, 1, 0);
  }

  lemma CustomerIsNormal(lib: Library)
    ensures Normal(lib, "Customer") == Some("Customer")
  {
    var c := "Customer";
    assert forall i :: 0 <= i < |c| ==> Alnum(c[i]);
    assert Upper(c[0]);
    AlnumIsNormal(lib, c);
  }

  method FrozenLedger() returns (l: Ledger)
    ensures fresh(l) && l.entries == FROZEN
  {
    hide FieldIDOf, RESOURCE;
    NamespacesDiffer(RESOURCE, RESOURCE);
    assert |"Customer"| == 8 && |"Email"| == 5;
    l := new Ledger();
    var ok := l.Record(RESOURCE_NAMESPACE, "Order", RESOURCE);
    ok := l.Record(FIELDS, "Customer", FieldIDOf('1'));
    ok := l.Record(FIELDS, "Email", FieldIDOf('2'));
  }

  /** NormalizeIdentifiers returns a result that is not valid. */
  method NormalizeReturnsInvalid(lib: Library) returns (result: RefactorResult)
    ensures WellFormedSpec(lib, ORDERS) && Agrees(FROZEN, ORDERS.resources)
    ensures result.Refactored? && !WellFormedSpec(lib, result.spec)
  {
    hide WellFormedSpec, Agrees, NormalizeResources, TwoFields, FROZEN;
    var l := FrozenLedger();
    BatchMeetsKey(lib);
    SampleVersion();
    result := NormalizeIdentifiers(lib, Some(ORDERS), l);
  }

  lemma SampleVersion()
    ensures Clonable(ORDERS)
  {
  }

  // ----- One refactor -----

  lemma EmailIsLocated()
    ensures Locate(ORDERS.resources, EMAIL.id) == Some(Location(FIELDS, "Email", true))
  {
    hide TwoFields, RESOURCE;
    TwoFieldsHas("Order", CUSTOMER, EMAIL);
    FieldPrefix('2');
    IDsDiffer('1', '2');
    hide FieldIDOf;
    var fields := [Some(CUSTOMER), Some(EMAIL)];
    assert fields[1..] == [Some(EMAIL)];
    assert FindField(fields, EMAIL.id) == FindField([Some(EMAIL)], EMAIL.id) == Some(EMAIL);
  }

  /** CustomerID is acceptable for Email. */
  lemma RefactorMeetsKey(lib: Library)
    ensures WellFormedSpec(lib, ORDERS) && Agrees(FROZEN, ORDERS.resources)
    ensures Locate(ORDERS.resources, EMAIL.id).Some?
    ensures Acceptable(FROZEN, Locate(ORDERS.resources, EMAIL.id).value, "CustomerID")
    ensures !WellFormedSpec(lib, ORDERS.(resources := SetCodeName(ORDERS.resources, EMAIL.id, "CustomerID")))
  {
    hide WellFormedSpec, Agrees, SetCodeName, TwoFields, FieldIDOf, RESOURCE, Locate;
    TheNames();
    OrdersAreValid(lib);
    OrdersAgree();
    EmailIsLocated();
    CustomerIDIsFree();
    TwoFieldsHas("Order", CUSTOMER, EMAIL);
    IDsDiffer('1', '2');
    var k, n := RefactorVerdict(lib, ORDERS, FROZEN, EMAIL.id, "CustomerID");
    assert n == 1 && ORDERS.resources[0].value.fields[0] == Some(CUSTOMER);
  }

  lemma CustomerIDIsFree()
    ensures Acceptable(FROZEN, Location(FIELDS, "Email", true), "CustomerID")
  {
    hide RESOURCE, FieldIDOf;
    NamespacesDiffer(RESOURCE, RESOURCE);
    assert |"CustomerID"| == 10 && "CustomerID"[0] == 'C' && |"Customer"| == 8 && |"Email"| == 5;
    assert "Model"[0] == 'M' && "CreatedAt"[1] == 'r';
  }

  /** RefactorCodeName accepts the symbol and returns a result that is not valid. */
  method RefactorReturnsInvalid(lib: Library) returns (result: RefactorResult)
    ensures WellFormedSpec(lib, ORDERS) && Agrees(FROZEN, ORDERS.resources)
    ensures result.Refactored? && !WellFormedSpec(lib, result.spec)
  {
    hide WellFormedSpec, Agrees, SetCodeName, TwoFields, FROZEN, Acceptable, Locate, EMAIL, Refrozen;
    var l := FrozenLedger();
    RefactorMeetsKey(lib);
    SampleVersion();
    result := RefactorCodeName(Some(ORDERS), l, EMAIL.id, "CustomerID");
  }

  // ----- A new field -----

  lemma SymbolIsLeft(lib: Library)
    ensures !NoSymbolLeft(lib, HEAD.resources[0].value.fields, "CustomerID", EMAIL.id)
    ensures !HasKey(FieldCode, HEAD.resources[0].value.fields, "CustomerID")
  {
    hide Normal, OneField, FieldIDOf, RESOURCE;
    OneFieldHas("Order", CUSTOMER);
    CustomerIDIsNormal(lib);
    assert Variant(BaseSymbol(lib, "CustomerID", EMAIL.id), 1) == "CustomerID";
    assert |"CustomerID"| == 10 && |"Customer"| == 8 && "Model"[0] == 'M' && "CreatedAt"[1] == 'r' && "CustomerID"[0] == 'C';
  }

  /** AddField makes a candidate of the label CustomerID, and the candidate is not valid. */
  method AddFieldReturnsInvalid(lib: Library) returns (candidate: Option<ProjectSpec>)
    ensures WellFormedSpec(lib, HEAD)
    ensures candidate.Some? && !WellFormedSpec(lib, candidate.value)
  {
    hide WellFormedSpec, AllIDs, NoSymbolLeft, HasKey, OneField, FieldIDOf, RESOURCE, PROJECT, ValidID, Normal, FirstSymbol, IsBlank;
    TheNames();
    HeadIsValid(lib);
    IDsDiffer('2', '1');
    DigitsAreCrockford();
    FieldIDIsValid('2');
    OneFieldHas("Order", CUSTOMER);
    SymbolIsLeft(lib);
    CustomerIDIsNormal(lib);
    var input := FieldInput("CustomerID", TString, false, false, None, []);
    ghost var i: nat, f: Field;
    candidate, i, f := AddField(lib, HEAD, RESOURCE, input, EMAIL.id);
    ghost var n: nat :| FirstSymbol(lib, HEAD.resources[i].value.fields, input.caption, EMAIL.id, n, f.codeName);
    KeyLabelNeverFits(lib, HEAD, i, 0, input, EMAIL.id, n, f.codeName, f.storageName);
  }
}
