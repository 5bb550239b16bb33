/** A valid spec tells its entities apart: what the flat list of distinct stable IDs means
    for the nested resources, fields and hooks. */
module Identity {
  import opened Text
  import opened Names
  import opened Spec
  import opened WellFormed

  lemma {:induction false} IDsMeaning<T>(id: T -> ID, xs: seq<Option<T>>)
    ensures forall w :: w in IDs(id, xs) <==> exists i :: 0 <= i < |xs| && xs[i].Some? && id(xs[i].value) == w
  {
    if xs != [] {
      var n := |xs| - 1;
      IDsMeaning(id, xs[..n]);
      assert forall i :: 0 <= i < n ==> xs[..n][i] == xs[i];
      forall w ensures w in IDs(id, xs) <==> exists i :: 0 <= i < |xs| && xs[i].Some? && id(xs[i].value) == w {
        if w in IDs(id, xs[..n]) {
          var i :| 0 <= i < n && xs[..n][i].Some? && id(xs[..n][i].value) == w;
          assert xs[i].Some?;
        }
      }
    }
  }

  lemma {:induction false} DistinctIDsAreUnique<T>(id: T -> ID, key: T -> Option<ID>, xs: seq<Option<T>>)
    requires Distinct(IDs(id, xs)) && forall x :: key(x) == Some(id(x))
    ensures Unique(key, xs)
  {
    if xs != [] {
      var n := |xs| - 1;
      var init := xs[..n];
      assert xs == init + [xs[n]];
      DistinctPrefix(IDs(id, init), if xs[n].Some? then [id(xs[n].value)] else []);
      DistinctIDsAreUnique(id, key, init);
      if xs[n].Some? {
        IDsMeaning(id, init);
        assert id(xs[n].value) !in IDs(id, init);
        UniqueSnoc(key, init, xs[n].value);
      } else {
        forall i, j | 0 <= i < j < |xs| && xs[i].Some? && xs[j].Some?
          ensures key(xs[i].value) != key(xs[j].value)
        {
          assert init[i].Some? && init[j].Some?;
        }
      }
    }
  }

  ghost predicate OwnID(r: Resource, w: ID) {
    w == r.id || w in FieldIDs(r.fields) || w in HookIDs(r.hooks)
  }

  lemma {:induction false} ResourceIDsMeaning(rs: seq<Option<Resource>>)
    ensures forall w :: w in ResourceIDs(rs) <==> exists i :: 0 <= i < |rs| && rs[i].Some? && OwnID(rs[i].value, w)
  {
    hide FieldIDs, HookIDs;
    if rs != [] {
      var n := |rs| - 1;
      ResourceIDsMeaning(rs[..n]);
      assert forall i :: 0 <= i < n ==> rs[..n][i] == rs[i];
      forall w ensures w in ResourceIDs(rs) <==> exists i :: 0 <= i < |rs| && rs[i].Some? && OwnID(rs[i].value, w) {
        if w in ResourceIDs(rs[..n]) {
          var i :| 0 <= i < n && rs[..n][i].Some? && OwnID(rs[..n][i].value, w);
          assert rs[i].Some?;
        }
      }
    }
  }

  /** Inside a resource no two of the resource, its fields and its hooks share an ID. */
  ghost predicate OwnIDsDistinct(r: Resource) { Distinct([r.id] + FieldIDs(r.fields) + HookIDs(r.hooks)) }

  lemma {:induction false} DistinctResourceIDs(rs: seq<Option<Resource>>)
    requires Distinct(ResourceIDs(rs))
    ensures forall i :: 0 <= i < |rs| && rs[i].Some? ==> Distinct(FieldIDs(rs[i].value.fields)) && OwnIDsDistinct(rs[i].value)
    ensures forall i, j, w :: 0 <= i < j < |rs| && rs[i].Some? && rs[j].Some? && OwnID(rs[i].value, w) ==> !OwnID(rs[j].value, w)
  {
    hide FieldIDs, HookIDs, Distinct;
    if rs != [] {
      var n := |rs| - 1;
      var init := rs[..n];
      assert forall i :: 0 <= i < n ==> init[i] == rs[i];
      var own := if rs[n].Some? then [rs[n].value.id] + FieldIDs(rs[n].value.fields) + HookIDs(rs[n].value.hooks) else [];
      DistinctPrefix(ResourceIDs(init), own);
      DistinctResourceIDs(init);
      ResourceIDsMeaning(init);
      if rs[n].Some? {
        DistinctPrefix([rs[n].value.id] + FieldIDs(rs[n].value.fields), HookIDs(rs[n].value.hooks));
        DistinctPrefix([rs[n].value.id], FieldIDs(rs[n].value.fields));
        forall i, w | 0 <= i < n && rs[i].Some? && OwnID(rs[i].value, w) ensures !OwnID(rs[n].value, w) {
          assert init[i].Some? && w in ResourceIDs(init);
        }
      }
    }
  }

  /** In a valid spec resource IDs are unique, field IDs are unique even across resources, and
      every entity has a code name: what refactoring and the ABI rely on. */
  lemma ValidIsNamed(lib: Library, s: ProjectSpec)
    requires WellFormedSpec(lib, s)
    ensures Named(s.resources)
    ensures forall i :: 0 <= i < |s.resources| ==> OwnIDsDistinct(s.resources[i].value)
    ensures forall i, j, w :: 0 <= i < j < |s.resources| && OwnID(s.resources[i].value, w) ==> !OwnID(s.resources[j].value, w)
    ensures forall i :: 0 <= i < |s.resources| ==> ValidID(s.resources[i].value.id, KindResource)
  {
    hide PagesOK, NavigationOK, BrandingOK, ProjectOK, BehaviorOK, HooksOK, FieldTypeOK, DefaultOK, IsBlank, IsStorageName;
    hide FieldIDs, HookIDs, ValidID, Distinct;
    var rs := s.resources;
    SectionsDistinct(s);
    DistinctResourceIDs(rs);
    forall i | 0 <= i < |rs| ensures ResourceOK(lib, s, rs[i].value) && NamedFields(rs[i].value.fields) && rs[i].value.codeName != "" {
      assert ResourceOK(lib, s, rs[i].value);
      FieldsNamed(lib, s, rs[i].value.fields);
    }
    forall i, j | 0 <= i < j < |rs| && rs[i].Some? && rs[j].Some? ensures KeyOfResource(rs[i].value) != KeyOfResource(rs[j].value) {
      assert OwnID(rs[i].value, rs[i].value.id) && OwnID(rs[j].value, rs[j].value.id);
    }
  }

  lemma SectionsDistinct(s: ProjectSpec)
    requires Distinct(AllIDs(s))
    ensures Distinct(ResourceIDs(s.resources)) && Distinct(IDs(PageID, s.pages))
  {
    hide ResourceIDs, IDs;
    DistinctPrefix([s.project.id] + ResourceIDs(s.resources) + IDs(PageID, s.pages), IDs(NavID, s.navigation));
    DistinctPrefix([s.project.id] + ResourceIDs(s.resources), IDs(PageID, s.pages));
    DistinctPrefix([s.project.id], ResourceIDs(s.resources));
  }

  lemma FieldsNamed(lib: Library, s: ProjectSpec, fields: seq<Option<Field>>)
    requires FieldsOK(lib, s, fields) && Distinct(FieldIDs(fields))
    ensures NamedFields(fields)
  {
    hide FieldTypeOK, DefaultOK, IsBlank, IsStorageName, ValidID, Unique;
    DistinctIDsAreUnique(FieldID, KeyOfField, fields);
    forall i | 0 <= i < |fields| && fields[i].Some? ensures fields[i].value.codeName != "" {
      assert FieldOK(lib, s, fields[i].value);
    }
  }
}
