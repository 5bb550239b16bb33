/** The domain graph (internal/compiler/graph/graph.go): every ID reference of a valid spec
    resolved once. A Go pointer into the graph is an index here: a resource is its position,
    a field its position within its resource. */
module Graph {
  import opened Text
  import opened Names
  import opened Spec
  import opened WellFormed
  import Validator

  /** One belongs_to edge: field `field` of resource `from` refers to resource `to`. */
  datatype Edge = Edge(from: nat, field: nat, to: nat)

  datatype ResolvedBehavior = ResolvedBehavior(
    list: seq<nat>, searchable: seq<nat>, sortable: seq<nat>, filterable: seq<nat>, aggregatable: seq<nat>)

  datatype CardNode = CardNode(resource: Option<nat>, orderBy: Option<nat>)

  datatype AggregateNode = AggregateNode(resource: Option<nat>, field: Option<nat>)

  datatype PageNode = PageNode(
    spec: Page,
    resource: Option<nat>,
    columns: seq<nat>,
    filters: seq<nat>,
    formFields: seq<nat>,
    countCards: seq<CardNode>,
    recentLists: seq<CardNode>,
    aggregateCards: seq<AggregateNode>)

  datatype NavNode = NavNode(spec: NavItem, page: Option<nat>)

  /** The first position whose entry has the ID, or None. */
  function IndexOf<T>(id: T -> ID, xs: seq<T>, want: ID): (r: Option<nat>)
    ensures r.Some? ==> r.value < |xs| && id(xs[r.value]) == want
    ensures r.None? ==> forall i :: 0 <= i < |xs| ==> id(xs[i]) != want
  {
    if xs == [] then None
    else if id(xs[0]) == want then Some(0)
    else
      match IndexOf(id, xs[1..], want)
      case None => None
      case Some(n) => Some(n + 1)
  }

  ghost predicate Unwraps<T>(xs: seq<Option<T>>, ys: seq<T>) {
    |xs| == |ys| && forall i :: 0 <= i < |xs| ==> xs[i] == Some(ys[i])
  }

  method Unwrap<T>(xs: seq<Option<T>>) returns (ys: seq<T>)
    requires AllSome(xs)
    ensures Unwraps(xs, ys)
  {
    ys := [];
    for i := 0 to |xs|
      invariant |ys| == i && forall k :: 0 <= k < i ==> xs[k] == Some(ys[k])
    {
      ys := ys + [xs[i].value];
    }
  }

  lemma {:induction false} FindIsIndex<T>(id: T -> ID, xs: seq<Option<T>>, ys: seq<T>, want: ID)
    requires Unwraps(xs, ys)
    ensures IndexOf(id, ys, want).None? <==> Find(id, xs, want).None?
    ensures IndexOf(id, ys, want).Some? ==> Find(id, xs, want) == Some(ys[IndexOf(id, ys, want).value])
  {
    if xs != [] {
      assert xs[0] == Some(ys[0]);
      assert forall i :: 0 <= i < |xs| - 1 ==> xs[1..][i] == xs[i + 1];
      FindIsIndex(id, xs[1..], ys[1..], want);
    }
  }

  // ----- Edges in resource-then-field order -----

  /** The edges of the first k fields of resource `from`. */
  function FieldEdges(rs: seq<Resource>, from: nat, k: nat): seq<Edge>
    requires from < |rs| && k <= |rs[from].fields|
  {
    if k == 0 then []
    else
      var f := rs[from].fields[k - 1];
      FieldEdges(rs, from, k - 1) +
      if f.Some? && f.value.kind.TBelongsTo? && IndexOf(ResourceID, rs, f.value.target).Some?
      then [Edge(from, k - 1, IndexOf(ResourceID, rs, f.value.target).value)] else []
  }

  function Edges(rs: seq<Resource>, n: nat): seq<Edge>
    requires n <= |rs|
  {
    if n == 0 then [] else Edges(rs, n - 1) + FieldEdges(rs, n - 1, |rs[n - 1].fields|)
  }

  function OutOf(edges: seq<Edge>, r: nat): seq<Edge> {
    if edges == [] then []
    else
      var last := edges[|edges| - 1];
      OutOf(edges[..|edges| - 1], r) + if last.from == r then [last] else []
  }

  function InTo(edges: seq<Edge>, r: nat): seq<Edge> {
    if edges == [] then []
    else
      var last := edges[|edges| - 1];
      InTo(edges[..|edges| - 1], r) + if last.to == r then [last] else []
  }

  /** Every belongs_to field of the listed resources finds its target. */
  ghost predicate TargetsResolve(rs: seq<Resource>) {
    forall i, k :: 0 <= i < |rs| && 0 <= k < |rs[i].fields| ==> TargetFound(rs, rs[i].fields[k])
  }

  ghost predicate TargetFound(rs: seq<Resource>, f: Option<Field>) {
    f.Some? && f.value.kind.TBelongsTo? ==> IndexOf(ResourceID, rs, f.value.target).Some?
  }

  /** Links both ends of every edge. A dangling target is an error, as in the source. */
  method LinkRelationships(rs: seq<Resource>) returns (ok: bool, belongsTo: seq<seq<Edge>>, hasMany: seq<seq<Edge>>)
    ensures ok <==> TargetsResolve(rs)
    ensures ok ==>
      && |belongsTo| == |hasMany| == |rs|
      && forall r :: 0 <= r < |rs| ==>
           belongsTo[r] == OutOf(Edges(rs, |rs|), r) && hasMany[r] == InTo(Edges(rs, |rs|), r)
  {
    belongsTo := seq(|rs|, _ => []);
    hasMany := seq(|rs|, _ => []);
    ghost var edges: seq<Edge> := [];
    for from := 0 to |rs|
      invariant |belongsTo| == |hasMany| == |rs| && edges == Edges(rs, from)
      invariant forall i, j :: 0 <= i < from && 0 <= j < |rs[i].fields| ==> TargetFound(rs, rs[i].fields[j])
      invariant forall r :: 0 <= r < |rs| ==> belongsTo[r] == OutOf(edges, r) && hasMany[r] == InTo(edges, r)
    {
      var fields := rs[from].fields;
      ghost var before := edges;
      for k := 0 to |fields|
        invariant |belongsTo| == |hasMany| == |rs| && edges == before + FieldEdges(rs, from, k)
        invariant forall j :: 0 <= j < k ==> TargetFound(rs, fields[j])
        invariant forall r :: 0 <= r < |rs| ==> belongsTo[r] == OutOf(edges, r) && hasMany[r] == InTo(edges, r)
      {
        if fields[k].None? || !fields[k].value.kind.TBelongsTo? {
          continue;
        }
        var to := IndexOf(ResourceID, rs, fields[k].value.target);
        if to.None? {
          return false, [], [];
        }
        var edge := Edge(from, k, to.value);
        assert (edges + [edge])[..|edges|] == edges;
        edges := edges + [edge];
        belongsTo := belongsTo[from := belongsTo[from] + [edge]];
        hasMany := hasMany[to.value := hasMany[to.value] + [edge]];
      }
    }
    return true, belongsTo, hasMany;
  }

  predicate Before(a: Edge, b: Edge) { a.from < b.from || (a.from == b.from && a.field < b.field) }

  /** In resource-then-field order, without repetition. */
  ghost predicate InOrder(edges: seq<Edge>) {
    forall i, j :: 0 <= i < j < |edges| ==> Before(edges[i], edges[j])
  }

  lemma InOrderConcat(a: seq<Edge>, b: seq<Edge>)
    requires InOrder(a) && InOrder(b) && forall x, y :: x in a && y in b ==> Before(x, y)
    ensures InOrder(a + b)
  {
    var c := a + b;
    forall i, j | 0 <= i < j < |c| ensures Before(c[i], c[j]) {
      if j < |a| {
      } else if i < |a| {
        assert c[i] in a && c[j] in b;
      } else {
        assert c[i] == b[i - |a|] && c[j] == b[j - |a|];
      }
    }
  }

  lemma {:induction false} FieldEdgesAre(rs: seq<Resource>, from: nat, k: nat)
    requires from < |rs| && k <= |rs[from].fields| && TargetsResolve(rs)
    ensures InOrder(FieldEdges(rs, from, k))
    ensures forall e :: e in FieldEdges(rs, from, k) <==>
      && e.from == from && e.field < k && rs[from].fields[e.field].Some?
      && rs[from].fields[e.field].value.kind.TBelongsTo?
      && IndexOf(ResourceID, rs, rs[from].fields[e.field].value.target) == Some(e.to)
  {
    if k > 0 {
      FieldEdgesAre(rs, from, k - 1);
      var init := FieldEdges(rs, from, k - 1);
      var f := rs[from].fields[k - 1];
      if f.Some? && f.value.kind.TBelongsTo? {
        InOrderConcat(init, [Edge(from, k - 1, IndexOf(ResourceID, rs, f.value.target).value)]);
      } else {
        assert FieldEdges(rs, from, k) == init;
      }
    }
  }

  ghost predicate IsEdge(rs: seq<Resource>, e: Edge) {
    && e.from < |rs| && e.field < |rs[e.from].fields| && rs[e.from].fields[e.field].Some?
    && rs[e.from].fields[e.field].value.kind.TBelongsTo?
    && IndexOf(ResourceID, rs, rs[e.from].fields[e.field].value.target) == Some(e.to)
  }

  lemma {:induction false} EdgesAre(rs: seq<Resource>, n: nat)
    requires n <= |rs| && TargetsResolve(rs)
    ensures InOrder(Edges(rs, n))
    ensures forall e :: e in Edges(rs, n) <==> e.from < n && IsEdge(rs, e)
  {
    if n > 0 {
      EdgesAre(rs, n - 1);
      FieldEdgesAre(rs, n - 1, |rs[n - 1].fields|);
      InOrderConcat(Edges(rs, n - 1), FieldEdges(rs, n - 1, |rs[n - 1].fields|));
    }
  }

  lemma {:induction false} SelectedAre(edges: seq<Edge>, r: nat)
    requires InOrder(edges)
    ensures forall e :: e in OutOf(edges, r) <==> e in edges && e.from == r
    ensures forall e :: e in InTo(edges, r) <==> e in edges && e.to == r
    ensures InOrder(OutOf(edges, r)) && InOrder(InTo(edges, r))
  {
    if edges != [] {
      var n := |edges| - 1;
      var init := edges[..n];
      assert edges == init + [edges[n]];
      SelectedAre(init, r);
      assert forall e :: e in init ==> Before(e, edges[n]);
      InOrderConcat(OutOf(init, r), if edges[n].from == r then [edges[n]] else []);
      InOrderConcat(InTo(init, r), if edges[n].to == r then [edges[n]] else []);
    }
  }

  /** Each belongs_to field is one edge, found once in the BelongsTo of its owner and once in
      the HasMany of its target and nowhere else, both in resource-then-field order. */
  lemma EveryEdgeOnce(rs: seq<Resource>, r: nat)
    requires TargetsResolve(rs)
    ensures InOrder(OutOf(Edges(rs, |rs|), r)) && InOrder(InTo(Edges(rs, |rs|), r))
    ensures forall e :: e in OutOf(Edges(rs, |rs|), r) <==> IsEdge(rs, e) && e.from == r
    ensures forall e :: e in InTo(Edges(rs, |rs|), r) <==> IsEdge(rs, e) && e.to == r
  {
    EdgesAre(rs, |rs|);
    SelectedAre(Edges(rs, |rs|), r);
  }

  // ----- Field lists, pages and navigation -----

  /** Every ID became the position of the field that carries it: nothing was dropped. */
  ghost predicate Resolves(fields: seq<Field>, ids: seq<ID>, out: seq<nat>) {
    |out| == |ids| && forall i :: 0 <= i < |ids| ==> out[i] < |fields| && fields[out[i]].id == ids[i]
  }

  /** resolveFields: an unknown ID would be skipped, which never happens in a valid spec. */
  method ResolveFields(fields: seq<Field>, ids: seq<ID>) returns (out: seq<nat>)
    ensures (forall i :: 0 <= i < |ids| ==> IndexOf(FieldID, fields, ids[i]).Some?) ==> Resolves(fields, ids, out)
    ensures forall k :: k in out ==> k < |fields| && fields[k].id in ids
  {
    out := [];
    for i := 0 to |ids|
      invariant (forall k :: 0 <= k < i ==> IndexOf(FieldID, fields, ids[k]).Some?) ==> Resolves(fields, ids[..i], out)
      invariant forall k :: k in out ==> k < |fields| && fields[k].id in ids
    {
      assert ids[..i + 1] == ids[..i] + [ids[i]];
      var field := IndexOf(FieldID, fields, ids[i]);
      if field.Some? {
        out := out + [field.value];
      }
    }
    assert ids[..|ids|] == ids;
  }

  ghost predicate IsScalarFields(fields: seq<Field>, out: seq<nat>) {
    && (forall i, j :: 0 <= i < j < |out| ==> out[i] < out[j])
    && forall k: nat :: k in out <==> k < |fields| && fields[k].kind.Scalar()
  }

  method ScalarFields(fields: seq<Field>) returns (out: seq<nat>)
    ensures IsScalarFields(fields, out)
  {
    out := [];
    for i := 0 to |fields|
      invariant forall m, n :: 0 <= m < n < |out| ==> out[m] < out[n]
      invariant forall k: nat :: k in out <==> k < i && fields[k].kind.Scalar()
    {
      if fields[i].kind.Scalar() {
        assert forall m :: 0 <= m < |out| ==> out[m] in out;
        out := out + [i];
      }
    }
  }

  datatype Node = Node(spec: Resource, fields: seq<Field>, behavior: ResolvedBehavior)

  ghost predicate NodeOK(n: Node) {
    && Unwraps(n.spec.fields, n.fields)
    && Resolves(n.fields, n.spec.behavior.list, n.behavior.list)
    && Resolves(n.fields, n.spec.behavior.searchable, n.behavior.searchable)
    && Resolves(n.fields, n.spec.behavior.sortable, n.behavior.sortable)
    && Resolves(n.fields, n.spec.behavior.filterable, n.behavior.filterable)
    && Resolves(n.fields, n.spec.behavior.aggregatable, n.behavior.aggregatable)
  }

  method BuildNode(r: Resource) returns (n: Node)
    requires AllSome(r.fields) && BehaviorOK(r)
    ensures n.spec == r && NodeOK(n)
  {
    var fields := Unwrap(r.fields);
    forall id ensures IndexOf(FieldID, fields, id).None? <==> FindField(r.fields, id).None? {
      FindIsIndex(FieldID, r.fields, fields, id);
    }
    var list := ResolveFields(fields, r.behavior.list);
    var searchable := ResolveFields(fields, r.behavior.searchable);
    var sortable := ResolveFields(fields, r.behavior.sortable);
    var filterable := ResolveFields(fields, r.behavior.filterable);
    var aggregatable := ResolveFields(fields, r.behavior.aggregatable);
    return Node(r, fields, ResolvedBehavior(list, searchable, sortable, filterable, aggregatable));
  }

  /** The three-way default of a table's columns. */
  ghost predicate ColumnsOK(n: Node, table: Option<TableConfig>, columns: seq<nat>) {
    if table.Some? && table.value.columns != [] then Resolves(n.fields, table.value.columns, columns)
    else if n.spec.behavior.list != [] then Resolves(n.fields, n.spec.behavior.list, columns)
    else IsScalarFields(n.fields, columns)
  }

  ghost predicate FiltersOK(n: Node, table: Option<TableConfig>, filters: seq<nat>) {
    Resolves(n.fields, if table.Some? then table.value.filters else [], filters)
  }

  ghost predicate FormFieldsOK(n: Node, form: Option<FormConfig>, out: seq<nat>) {
    if form.Some? && form.value.fields != [] then Resolves(n.fields, form.value.fields, out)
    else out == seq(|n.fields|, i => i)
  }

  ghost predicate RefersTo(nodes: seq<Node>, id: ID, at: Option<nat>) {
    at.Some? && at.value < |nodes| && nodes[at.value].spec.id == id
  }

  ghost predicate CardResolved(nodes: seq<Node>, c: Card, node: CardNode) {
    && RefersTo(nodes, c.resource, node.resource)
    && (c.orderBy == "" ==> node.orderBy.None?)
    && (c.orderBy != "" ==>
          var fields := nodes[node.resource.value].fields;
          node.orderBy.Some? && node.orderBy.value < |fields| && fields[node.orderBy.value].id == c.orderBy)
  }

  ghost predicate AggregateResolved(nodes: seq<Node>, c: AggregateCard, node: AggregateNode) {
    && RefersTo(nodes, c.resource, node.resource)
    && node.field.Some?
    && var fields := nodes[node.resource.value].fields;
       node.field.value < |fields| && fields[node.field.value].id == c.field
  }

  ghost predicate CardsResolved(nodes: seq<Node>, cards: seq<Card>, out: seq<CardNode>) {
    |out| == |cards| && forall i :: 0 <= i < |cards| ==> CardResolved(nodes, cards[i], out[i])
  }

  ghost predicate AggregatesResolved(nodes: seq<Node>, cards: seq<AggregateCard>, out: seq<AggregateNode>) {
    |out| == |cards| && forall i :: 0 <= i < |cards| ==> AggregateResolved(nodes, cards[i], out[i])
  }

  /** Each page projects exactly the view its type defines, with every reference resolved. */
  ghost predicate PageResolved(nodes: seq<Node>, p: Page, out: PageNode) {
    && out.spec == p
    && (p.kind.OnResource() ==> RefersTo(nodes, p.resource, out.resource))
    && (p.kind.DashboardPage? ==> out.resource.None?)
    && (if p.kind.ResourceTable? then
          var n := nodes[out.resource.value];
          ColumnsOK(n, p.table, out.columns) && FiltersOK(n, p.table, out.filters)
        else out.columns == [] && out.filters == [])
    && (if p.kind.ResourceForm? then FormFieldsOK(nodes[out.resource.value], p.form, out.formFields)
        else out.formFields == [])
    && (if p.kind.DashboardPage? && p.dashboard.Some? then
          && CardsResolved(nodes, p.dashboard.value.countCards, out.countCards)
          && CardsResolved(nodes, p.dashboard.value.recentLists, out.recentLists)
          && AggregatesResolved(nodes, p.dashboard.value.aggregateCards, out.aggregateCards)
        else out.countCards == [] && out.recentLists == [] && out.aggregateCards == [])
  }

  ghost predicate NavResolved(pages: seq<PageNode>, item: NavItem, out: NavNode) {
    && out.spec == item
    && (item.target.NavPage? ==> out.page.Some? && out.page.value < |pages| && pages[out.page.value].spec.id == item.page)
    && (item.target.NavExternal? ==> out.page.None?)
  }

  ghost predicate NodesOf(s: ProjectSpec, nodes: seq<Node>) {
    && |nodes| == |s.resources|
    && forall i :: 0 <= i < |nodes| ==> s.resources[i] == Some(nodes[i].spec) && NodeOK(nodes[i])
  }

  function NodeID(n: Node): ID { n.spec.id }

  lemma {:induction false} FindNode(s: ProjectSpec, nodes: seq<Node>, id: ID)
    requires NodesOf(s, nodes)
    ensures IndexOf(NodeID, nodes, id).None? <==> FindResource(s.resources, id).None?
    ensures IndexOf(NodeID, nodes, id).Some? ==>
      FindResource(s.resources, id) == Some(nodes[IndexOf(NodeID, nodes, id).value].spec)
  {
    hide NodeOK;
    FindAmong(s.resources, nodes, id);
  }

  lemma {:induction false} FindAmong(rs: seq<Option<Resource>>, nodes: seq<Node>, id: ID)
    requires |rs| == |nodes| && forall i :: 0 <= i < |rs| ==> rs[i] == Some(nodes[i].spec)
    ensures IndexOf(NodeID, nodes, id).None? <==> FindResource(rs, id).None?
    ensures IndexOf(NodeID, nodes, id).Some? ==> FindResource(rs, id) == Some(nodes[IndexOf(NodeID, nodes, id).value].spec)
  {
    if rs != [] { FindAmong(rs[1..], nodes[1..], id); }
  }

  lemma FieldsFound(n: Node, ids: seq<ID>)
    requires NodeOK(n) && AllOnResource(ids, n.spec)
    ensures forall i :: 0 <= i < |ids| ==> IndexOf(FieldID, n.fields, ids[i]).Some?
  {
    forall i | 0 <= i < |ids| ensures IndexOf(FieldID, n.fields, ids[i]).Some? {
      FindIsIndex(FieldID, n.spec.fields, n.fields, ids[i]);
    }
  }

  method TableColumns(n: Node, table: Option<TableConfig>) returns (columns: seq<nat>)
    requires NodeOK(n) && (table.Some? ==> AllOnResource(table.value.columns, n.spec))
    ensures ColumnsOK(n, table, columns)
  {
    if table.Some? && table.value.columns != [] {
      FieldsFound(n, table.value.columns);
      columns := ResolveFields(n.fields, table.value.columns);
      return;
    }
    if n.behavior.list != [] {
      return n.behavior.list;
    }
    columns := ScalarFields(n.fields);
  }

  method ResolveCards(s: ProjectSpec, nodes: seq<Node>, cards: seq<Card>) returns (out: seq<CardNode>)
    requires NodesOf(s, nodes)
    requires forall i :: 0 <= i < |cards| ==> CardOK(s, cards[i])
    requires forall i :: 0 <= i < |cards| && cards[i].orderBy != "" ==> RecentOK(s, cards[i])
    ensures CardsResolved(nodes, cards, out)
  {
    hide NodesOf, NodeOK, IsBlank;
    out := [];
    for i := 0 to |cards|
      invariant CardsResolved(nodes, cards[..i], out)
    {
      var c := cards[i];
      var r := IndexOf(NodeID, nodes, c.resource);
      FindNode(s, nodes, c.resource);
      var orderBy: Option<nat> := None;
      if c.orderBy != "" && r.Some? {
        var n := nodes[r.value];
        orderBy := IndexOf(FieldID, n.fields, c.orderBy);
        NodeFields(s, nodes, r.value);
        FindIsIndex(FieldID, n.spec.fields, n.fields, c.orderBy);
      }
      out := out + [CardNode(r, orderBy)];
      assert CardResolved(nodes, c, CardNode(r, orderBy));
    }
    assert cards[..|cards|] == cards;
  }

  lemma NodeFields(s: ProjectSpec, nodes: seq<Node>, k: nat)
    requires NodesOf(s, nodes) && k < |nodes|
    ensures Unwraps(nodes[k].spec.fields, nodes[k].fields) && NodeOK(nodes[k])
  {
    assert NodeOK(nodes[k]);
  }

  method ResolveAggregateCards(s: ProjectSpec, nodes: seq<Node>, cards: seq<AggregateCard>) returns (out: seq<AggregateNode>)
    requires NodesOf(s, nodes)
    requires forall i :: 0 <= i < |cards| ==> AggregateOK(s, cards[i])
    ensures AggregatesResolved(nodes, cards, out)
  {
    hide NodesOf, NodeOK, IsBlank;
    out := [];
    for i := 0 to |cards|
      invariant AggregatesResolved(nodes, cards[..i], out)
    {
      var c := cards[i];
      var r := IndexOf(NodeID, nodes, c.resource);
      FindNode(s, nodes, c.resource);
      var field: Option<nat> := None;
      if r.Some? {
        var n := nodes[r.value];
        field := IndexOf(FieldID, n.fields, c.field);
        NodeFields(s, nodes, r.value);
        FindIsIndex(FieldID, n.spec.fields, n.fields, c.field);
      }
      assert AggregateOK(s, c);
      out := out + [AggregateNode(r, field)];
      assert AggregateResolved(nodes, c, AggregateNode(r, field));
    }
    assert cards[..|cards|] == cards;
  }

  method BuildPage(s: ProjectSpec, nodes: seq<Node>, p: Page) returns (out: PageNode)
    requires NodesOf(s, nodes) && PageOK(s, p)
    ensures PageResolved(nodes, p, out)
  {
    hide NodesOf, NodeOK, IsBlank, ValidID, IsSlug, CardsResolved, AggregatesResolved, Resolves, CardOK, RecentOK, AggregateOK;
    hide IsScalarFields, AllOnResource;
    out := PageNode(p, None, [], [], [], [], [], []);
    if p.resource != "" {
      out := out.(resource := IndexOf(NodeID, nodes, p.resource));
      FindNode(s, nodes, p.resource);
    }
    match p.kind {
      case ResourceTable =>
        if out.resource.Some? {
          var n := nodes[out.resource.value];
          NodeFields(s, nodes, out.resource.value);
          var columns := TableColumns(n, p.table);
          var filters: seq<nat> := [];
          if p.table.Some? {
            FieldsFound(n, p.table.value.filters);
            filters := ResolveFields(n.fields, p.table.value.filters);
          } else {
            assert Resolves(n.fields, [], []) by { ResolvesNothing(n.fields); }
          }
          out := out.(columns := columns, filters := filters);
        }
      case ResourceForm =>
        if out.resource.Some? {
          var n := nodes[out.resource.value];
          NodeFields(s, nodes, out.resource.value);
          if p.form.Some? && p.form.value.fields != [] {
            FieldsFound(n, p.form.value.fields);
            var fields := ResolveFields(n.fields, p.form.value.fields);
            out := out.(formFields := fields);
          } else {
            out := out.(formFields := seq(|n.fields|, i => i));
          }
        }
      case DashboardPage =>
        if p.dashboard.Some? {
          var d := p.dashboard.value;
          CountCardsHaveNoOrder(s, d);
          var count := ResolveCards(s, nodes, d.countCards);
          var recent := ResolveCards(s, nodes, d.recentLists);
          var aggregate := ResolveAggregateCards(s, nodes, d.aggregateCards);
          out := out.(countCards := count, recentLists := recent, aggregateCards := aggregate);
        }
      case ResourceDetail =>
      case UnknownPage(_) =>
    }
  }

  lemma ResolvesNothing(fields: seq<Field>)
    ensures Resolves(fields, [], [])
  {
  }

  lemma CountCardsHaveNoOrder(s: ProjectSpec, d: DashboardConfig)
    requires DashboardOK(s, d)
    ensures forall i :: 0 <= i < |d.countCards| ==> CardOK(s, d.countCards[i]) && d.countCards[i].orderBy == ""
    ensures forall i :: 0 <= i < |d.recentLists| ==> CardOK(s, d.recentLists[i]) && RecentOK(s, d.recentLists[i])
    ensures forall i :: 0 <= i < |d.aggregateCards| ==> AggregateOK(s, d.aggregateCards[i])
  {
  }

  class Graph {
    var spec: ProjectSpec
    var resources: seq<Node>
    var belongsTo: seq<seq<Edge>>
    var hasMany: seq<seq<Edge>>
    var pages: seq<PageNode>
    var navigation: seq<NavNode>

    constructor (spec: ProjectSpec)
      ensures this.spec == spec
      ensures resources == [] && pages == [] && navigation == []
    {
      this.spec := spec;
      resources, belongsTo, hasMany, pages, navigation := [], [], [], [], [];
    }

    /** The resource specs of the nodes, in order. */
    ghost function Specs(): (rs: seq<Resource>)
      reads this
      ensures |rs| == |resources| && forall i :: 0 <= i < |rs| ==> rs[i] == resources[i].spec
    {
      seq(|resources|, i requires 0 <= i < |resources| reads this => resources[i].spec)
    }

    /** Every reference of the spec is resolved, and both ends of every edge are listed. */
    ghost predicate Complete()
      reads this
    {
      && NodesOf(spec, resources)
      && TargetsResolve(Specs())
      && |belongsTo| == |hasMany| == |resources|
      && (forall r :: 0 <= r < |resources| ==>
            belongsTo[r] == OutOf(Edges(Specs(), |resources|), r) && hasMany[r] == InTo(Edges(Specs(), |resources|), r))
      && |pages| == |spec.pages|
      && (forall i :: 0 <= i < |pages| ==> spec.pages[i].Some? && PageResolved(resources, spec.pages[i].value, pages[i]))
      && |navigation| == |spec.navigation|
      && (forall i :: 0 <= i < |navigation| ==>
            spec.navigation[i].Some? && NavResolved(pages, spec.navigation[i].value, navigation[i]))
    }
  }

  method BuildNodes(lib: Library, s: ProjectSpec) returns (nodes: seq<Node>)
    requires WellFormedSpec(lib, s)
    ensures NodesOf(s, nodes)
  {
    hide NodeOK, Distinct, AllIDs, PagesOK, NavigationOK, BrandingOK, ProjectOK, Unique, HooksOK;
    hide IsBlank, ValidID, IsStorageName, IsExportedGoIdent;
    nodes := [];
    for i := 0 to |s.resources|
      invariant |nodes| == i
      invariant forall k :: 0 <= k < i ==> s.resources[k] == Some(nodes[k].spec) && NodeOK(nodes[k])
    {
      var r := s.resources[i].value;
      assert ResourceOK(lib, s, r) && AllSome(r.fields);
      var node := BuildNode(r);
      nodes := nodes + [node];
    }
  }

  lemma ValidTargetsResolve(lib: Library, s: ProjectSpec, nodes: seq<Node>, rs: seq<Resource>)
    requires WellFormedSpec(lib, s) && NodesOf(s, nodes)
    requires |rs| == |nodes| && forall i :: 0 <= i < |rs| ==> rs[i] == nodes[i].spec
    ensures TargetsResolve(rs)
  {
    hide NodeOK, Distinct, AllIDs, PagesOK, NavigationOK, BrandingOK, ProjectOK, Unique, HooksOK, BehaviorOK, DefaultOK;
    hide IsBlank, ValidID, IsStorageName, IsExportedGoIdent;
    forall i, k | 0 <= i < |rs| && 0 <= k < |rs[i].fields| && rs[i].fields[k].Some? && rs[i].fields[k].value.kind.TBelongsTo?
      ensures IndexOf(ResourceID, rs, rs[i].fields[k].value.target).Some?
    {
      assert s.resources[i] == Some(rs[i]) && ResourceOK(lib, s, rs[i]);
      assert FieldOK(lib, s, rs[i].fields[k].value);
      FindIsIndex(ResourceID, s.resources, rs, rs[i].fields[k].value.target);
    }
  }

  method BuildPages(lib: Library, s: ProjectSpec, nodes: seq<Node>) returns (pages: seq<PageNode>)
    requires WellFormedSpec(lib, s) && NodesOf(s, nodes)
    ensures |pages| == |s.pages|
    ensures forall i :: 0 <= i < |pages| ==> s.pages[i].Some? && PageResolved(nodes, s.pages[i].value, pages[i])
  {
    hide NodesOf, PageOK, PageResolved, Distinct, AllIDs, ResourcesOK, NavigationOK, BrandingOK, ProjectOK, Unique;
    pages := [];
    for i := 0 to |s.pages|
      invariant |pages| == i
      invariant forall k :: 0 <= k < i ==> s.pages[k].Some? && PageResolved(nodes, s.pages[k].value, pages[k])
    {
      assert PageOK(s, s.pages[i].value);
      var page := BuildPage(s, nodes, s.pages[i].value);
      pages := pages + [page];
    }
  }

  function PageNodeID(p: PageNode): ID { p.spec.id }

  lemma {:induction false} FindPageNode(ps: seq<Option<Page>>, pages: seq<PageNode>, id: ID)
    requires |ps| == |pages| && forall i :: 0 <= i < |ps| ==> ps[i] == Some(pages[i].spec)
    ensures IndexOf(PageNodeID, pages, id).None? <==> FindPage(ps, id).None?
    ensures IndexOf(PageNodeID, pages, id).Some? ==> FindPage(ps, id) == Some(pages[IndexOf(PageNodeID, pages, id).value].spec)
  {
    if ps != [] { FindPageNode(ps[1..], pages[1..], id); }
  }

  method BuildNavigation(lib: Library, s: ProjectSpec, pages: seq<PageNode>) returns (navigation: seq<NavNode>)
    requires WellFormedSpec(lib, s)
    requires |pages| == |s.pages| && forall i :: 0 <= i < |pages| ==> s.pages[i] == Some(pages[i].spec)
    ensures |navigation| == |s.navigation|
    ensures forall i :: 0 <= i < |navigation| ==>
      s.navigation[i].Some? && NavResolved(pages, s.navigation[i].value, navigation[i])
  {
    hide PagesOK, Distinct, AllIDs, ResourcesOK, BrandingOK, ProjectOK, ValidID, IsBlank;
    navigation := [];
    for i := 0 to |s.navigation|
      invariant |navigation| == i
      invariant forall k :: 0 <= k < i ==> s.navigation[k].Some? && NavResolved(pages, s.navigation[k].value, navigation[k])
    {
      var item := s.navigation[i].value;
      assert NavOK(s, item);
      var entry := NavNode(item, None);
      if item.target.NavPage? {
        entry := entry.(page := IndexOf(PageNodeID, pages, item.page));
        FindPageNode(s.pages, pages, item.page);
      }
      navigation := navigation + [entry];
    }
  }

  /** Build refuses an invalid spec and nothing else; over a valid one every reference is
      resolved, so later stages need no nil checks. */
  method Build(lib: Library, s: Option<ProjectSpec>) returns (g: Graph?)
    ensures g != null <==> s.Some? && WellFormedSpec(lib, s.value)
    ensures g != null ==> fresh(g) && g.spec == s.value && g.Complete()
  {
    hide WellFormedSpec, NodeOK, PageResolved, NavResolved, TargetsResolve, Edges, OutOf, InTo;
    var diagnostics := Validator.Validate(lib, s);
    if diagnostics != [] {
      return null;
    }
    g := new Graph(s.value);
    g.resources := BuildNodes(lib, s.value);
    var specs := seq(|g.resources|, i requires 0 <= i < |g.resources| reads g => g.resources[i].spec);
    ValidTargetsResolve(lib, s.value, g.resources, specs);
    var ok, belongsTo, hasMany := LinkRelationships(specs);
    // The source returns an error here; TargetsResolve makes that branch dead.
    assert ok;
    g.belongsTo, g.hasMany := belongsTo, hasMany;
    g.pages := BuildPages(lib, s.value, g.resources);
    PageSpecs(s.value, g.resources, g.pages);
    g.navigation := BuildNavigation(lib, s.value, g.pages);
    assert g.Specs() == specs;
    assert NodesOf(g.spec, g.resources);
    assert TargetsResolve(g.Specs());
    assert forall r :: 0 <= r < |g.resources| ==>
      g.belongsTo[r] == OutOf(Edges(g.Specs(), |g.resources|), r) && g.hasMany[r] == InTo(Edges(g.Specs(), |g.resources|), r);
  }

  lemma PageSpecs(s: ProjectSpec, nodes: seq<Node>, pages: seq<PageNode>)
    requires |pages| == |s.pages|
    requires forall i :: 0 <= i < |pages| ==> s.pages[i].Some? && PageResolved(nodes, s.pages[i].value, pages[i])
    ensures forall i :: 0 <= i < |pages| ==> s.pages[i] == Some(pages[i].spec)
  {
  }
}
