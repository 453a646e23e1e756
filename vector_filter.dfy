/** The metadata filter built for the vector-store retriever
    (backend/vector/utils.py). */
module VectorFilter {
  import opened Wrappers
  import opened Text
  import opened Docs

  /** The three optional constraints of `create_vectorstore_filter`. */
  datatype FilterSpec = FilterSpec(roleFilter: Option<string>, contentType: Option<string>, resourceType: Option<string>)

  /** Python's `target in value` on a metadata value: list membership for a tag list,
      substring for a string; an integer is not a container and raises. */
  function Contains(value: MetaValue, target: string): (r: Result<bool>)
    ensures value.Tags? ==> r == Ok(target in value.tags)
    ensures value.Str? ==> r == Ok(IsSubstring(target, value.s))
    ensures value.Int? <==> r.Err?
  {
    match value
    case Tags(ts) => Ok(target in ts)
    case Str(s) => Ok(IsSubstring(target, s))
    case Int(_) => Err(TypeError("argument of type 'int' is not iterable"))
  }

  /** One `if constraint is not None: if constraint not in metadata[key]` test.
      `Ok(true)` lets the filter go on, `Ok(false)` is the early `return False`. */
  function Check(constraint: Option<string>, metadata: Metadata, key: string): (r: Result<bool>)
    ensures constraint.None? ==> r == Ok(true)
    ensures constraint.Some? && key !in metadata ==> r == Err(KeyError(key))
    ensures constraint.Some? && key in metadata && metadata[key].Tags? ==>
      r == Ok(constraint.value in metadata[key].tags)
    ensures r == Ok(true) ==> constraint.None? || key in metadata
  {
    match constraint
    case None => Ok(true)
    case Some(target) =>
      if key !in metadata then Err(KeyError(key)) else Contains(metadata[key], target)
  }

  /** The filter function returned by `create_vectorstore_filter(spec...)`, applied
      to one metadata dictionary: the three tests in order, stopping at the first
      that fails or raises. */
  function Matches(spec: FilterSpec, metadata: Metadata): (r: Result<bool>)
    ensures r == Ok(true) <==>
      && Check(spec.roleFilter, metadata, AudienceKey) == Ok(true)
      && Check(spec.contentType, metadata, CategoryKey) == Ok(true)
      && Check(spec.resourceType, metadata, ResourceTypeKey) == Ok(true)
    ensures r == Ok(true) ==>
      && (spec.roleFilter.Some? ==> AudienceKey in metadata)
      && (spec.contentType.Some? ==> CategoryKey in metadata)
      && (spec.resourceType.Some? ==> ResourceTypeKey in metadata)
    ensures r.Err? ==> r.error.KeyError? || r.error.TypeError?
  {
    match Check(spec.roleFilter, metadata, AudienceKey)
    case Err(e) => Err(e)
    case Ok(false) => Ok(false)
    case Ok(true) =>
      match Check(spec.contentType, metadata, CategoryKey)
      case Err(e) => Err(e)
      case Ok(false) => Ok(false)
      case Ok(true) =>
        match Check(spec.resourceType, metadata, ResourceTypeKey)
        case Err(e) => Err(e)
        case Ok(b) => Ok(b)
  }

  /** A constraint that is set names a key present in the metadata, with a list of tags. */
  predicate Tagged(constraint: Option<string>, metadata: Metadata, key: string)
  {
    constraint.Some? ==> key in metadata && metadata[key].Tags?
  }

  /** The constraint is unset or is one of the field's tags. */
  predicate Satisfied(constraint: Option<string>, metadata: Metadata, key: string)
    requires Tagged(constraint, metadata, key)
  {
    constraint.None? || constraint.value in metadata[key].tags
  }

  /** With no constraint at all, every metadata dictionary is accepted. */
  lemma NoConstraintsAcceptAll(metadata: Metadata)
    ensures Matches(FilterSpec(None, None, None), metadata) == Ok(true)
  {
  }

  /** On tag-list metadata the filter accepts exactly when every set constraint
      is one of the tags of its field. */
  lemma MatchesIff(spec: FilterSpec, metadata: Metadata)
    requires Tagged(spec.roleFilter, metadata, AudienceKey)
    requires Tagged(spec.contentType, metadata, CategoryKey)
    requires Tagged(spec.resourceType, metadata, ResourceTypeKey)
    ensures Matches(spec, metadata) == Ok(
      && Satisfied(spec.roleFilter, metadata, AudienceKey)
      && Satisfied(spec.contentType, metadata, CategoryKey)
      && Satisfied(spec.resourceType, metadata, ResourceTypeKey))
  {
  }

  /** A role that is not among the audience tags rejects, whatever the other constraints. */
  lemma RoleMismatchRejects(spec: FilterSpec, metadata: Metadata)
    requires spec.roleFilter.Some? && AudienceKey in metadata && metadata[AudienceKey].Tags?
    requires spec.roleFilter.value !in metadata[AudienceKey].tags
    ensures Matches(spec, metadata) == Ok(false)
  {
  }

  /** A content type that is not among the category tags rejects, unless an earlier test
      already ended the call. */
  lemma ContentMismatchRejects(spec: FilterSpec, metadata: Metadata)
    requires spec.contentType.Some? && CategoryKey in metadata && metadata[CategoryKey].Tags?
    requires spec.contentType.value !in metadata[CategoryKey].tags
    ensures Matches(spec, metadata).Ok? ==> Matches(spec, metadata) == Ok(false)
  {
  }

  /** A resource type that is not among the resource-type tags rejects, unless an earlier
      test already ended the call. */
  lemma ResourceMismatchRejects(spec: FilterSpec, metadata: Metadata)
    requires spec.resourceType.Some? && ResourceTypeKey in metadata && metadata[ResourceTypeKey].Tags?
    requires spec.resourceType.value !in metadata[ResourceTypeKey].tags
    ensures Matches(spec, metadata).Ok? ==> Matches(spec, metadata) == Ok(false)
  {
  }

  /** A set constraint whose field is missing raises `KeyError` once the tests before
      it have passed. */
  lemma MissingKeyRaises(spec: FilterSpec, metadata: Metadata)
    requires spec.roleFilter.Some? && AudienceKey !in metadata
    ensures Matches(spec, metadata) == Err(KeyError(AudienceKey))
  {
  }

  /** The field of an unset constraint is never read: changing or removing it leaves
      the verdict as it was. */
  lemma UnsetFieldsUnread(spec: FilterSpec, metadata: Metadata, key: string, v: MetaValue)
    requires key == AudienceKey ==> spec.roleFilter.None?
    requires key == CategoryKey ==> spec.contentType.None?
    requires key == ResourceTypeKey ==> spec.resourceType.None?
    ensures Matches(spec, metadata[key := v]) == Matches(spec, metadata)
    ensures Matches(spec, metadata - {key}) == Matches(spec, metadata)
  {
    assert Check(spec.roleFilter, metadata[key := v], AudienceKey) == Check(spec.roleFilter, metadata, AudienceKey);
    assert Check(spec.contentType, metadata[key := v], CategoryKey) == Check(spec.contentType, metadata, CategoryKey);
    assert Check(spec.resourceType, metadata[key := v], ResourceTypeKey) == Check(spec.resourceType, metadata, ResourceTypeKey);
    assert Check(spec.roleFilter, metadata - {key}, AudienceKey) == Check(spec.roleFilter, metadata, AudienceKey);
    assert Check(spec.contentType, metadata - {key}, CategoryKey) == Check(spec.contentType, metadata, CategoryKey);
    assert Check(spec.resourceType, metadata - {key}, ResourceTypeKey) == Check(spec.resourceType, metadata, ResourceTypeKey);
  }

  /** A citizen filter rejects a chunk tagged only for lawyers and accepts one tagged
      for both. */
  lemma CitizenExample()
    ensures Matches(FilterSpec(Some("citizen"), None, None), map[AudienceKey := Tags(["lawyer"])]) == Ok(false)
    ensures Matches(FilterSpec(Some("citizen"), None, None), map[AudienceKey := Tags(["citizen", "lawyer"])]) == Ok(true)
  {
    assert "citizen" != "lawyer";
  }
}
