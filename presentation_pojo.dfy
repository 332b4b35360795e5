/**
 * The presentation records of a manifestation and of a related
 * manifestation, their projections onto the presentation fields and their
 * equality.
 */
module PresentationPojo {
  import opened Wrappers
  import opened TypedValues

  /** A series a manifestation belongs to. */
  datatype SeriesInformation = SeriesInformation(title: Option<string>, instalment: Option<string>)

  /** One manifestation; every field may be null. */
  datatype ManifestationInformation = ManifestationInformation(
    manifestationId: Option<string>,
    title: Option<string>,
    fullTitle: Option<string>,
    series: Option<SeriesInformation>,
    creators: Option<seq<TypedValue>>,
    description: Option<string>,
    subjects: Option<seq<TypedValue>>,
    materialTypes: Option<seq<string>>,
    workTypes: Option<seq<string>>,
    priorityKeys: Option<map<string, string>>)

  /** A manifestation related to a work, with the kind of relation. */
  datatype RelationInformation = RelationInformation(relationType: Option<string>, manifestation: ManifestationInformation)

  /** A record with every field null. */
  const EmptyManifestation := ManifestationInformation(None, None, None, None, None, None, None, None, None, None)

  // ---------------------------------------------------------------------
  // ManifestationInformation
  // ---------------------------------------------------------------------

  /** `ManifestationInformation.onlyPresentationFields`: the id and the two type lists, nothing else. */
  function OnlyPresentationFields(m: ManifestationInformation): (r: ManifestationInformation)
  {
    EmptyManifestation.(manifestationId := m.manifestationId, materialTypes := m.materialTypes, workTypes := m.workTypes)
  }

  /** The projection keeps exactly the id and the type lists, and projecting twice changes nothing. */
  lemma OnlyPresentationFieldsKeeps(m: ManifestationInformation)
    ensures var r := OnlyPresentationFields(m);
      && r.manifestationId == m.manifestationId && r.materialTypes == m.materialTypes && r.workTypes == m.workTypes
      && r.title.None? && r.fullTitle.None? && r.series.None? && r.creators.None?
      && r.description.None? && r.subjects.None? && r.priorityKeys.None?
    ensures OnlyPresentationFields(OnlyPresentationFields(m)) == OnlyPresentationFields(m)
  {
  }

  /** `ManifestationInformation.equals`: all ten fields agree. */
  predicate ManifestationEquals(a: ManifestationInformation, o: Option<ManifestationInformation>)
  {
    o.Some? &&
    a.manifestationId == o.value.manifestationId && a.title == o.value.title &&
    a.fullTitle == o.value.fullTitle && a.series == o.value.series &&
    a.creators == o.value.creators && a.description == o.value.description &&
    a.subjects == o.value.subjects && a.materialTypes == o.value.materialTypes &&
    a.workTypes == o.value.workTypes && a.priorityKeys == o.value.priorityKeys
  }

  /** `ManifestationEquals` is equality of the records and is false for null. */
  lemma ManifestationEqualsIsEquality(a: ManifestationInformation, o: Option<ManifestationInformation>)
    ensures ManifestationEquals(a, o) <==> o == Some(a)
  {
  }

  /** The tuple `ManifestationInformation.hashCode` hashes, in its order. */
  type ManifestationHashTuple = (Option<string>, Option<string>, Option<string>, Option<SeriesInformation>,
                                 Option<seq<TypedValue>>, Option<string>, Option<seq<TypedValue>>,
                                 Option<seq<string>>, Option<seq<string>>, Option<map<string, string>>)

  /** The fields `ManifestationInformation.hashCode` passes to `Objects.hash`. */
  function ManifestationHashFields(m: ManifestationInformation): ManifestationHashTuple
  {
    (m.manifestationId, m.title, m.fullTitle, m.series, m.creators,
     m.description, m.subjects, m.materialTypes, m.workTypes, m.priorityKeys)
  }

  /** The hash ranges over exactly the fields `equals` compares: equal records hash alike, and records that differ differ in a hashed field. */
  lemma ManifestationHashConsistent(a: ManifestationInformation, b: ManifestationInformation)
    ensures ManifestationEquals(a, Some(b)) <==> ManifestationHashFields(a) == ManifestationHashFields(b)
  {
  }

  // ---------------------------------------------------------------------
  // RelationInformation
  // ---------------------------------------------------------------------

  /**
   * `RelationInformation.from`: the relation type and eight of the
   * manifestation's fields; series, work types and priority keys stay null.
   */
  function RelationFrom(relationType: Option<string>, mani: ManifestationInformation): (r: RelationInformation)
    ensures r.relationType == relationType
    ensures r.manifestation.series.None? && r.manifestation.workTypes.None? && r.manifestation.priorityKeys.None?
  {
    RelationInformation(relationType, mani.(series := None, workTypes := None, priorityKeys := None))
  }

  /** `RelationInformation.mapperWith`: `from` with the relation type fixed. */
  function MapperWith(relationType: Option<string>): ManifestationInformation -> RelationInformation
  {
    mani => RelationFrom(relationType, mani)
  }

  /** The mapper applies `from`, and `from` keeps every field it copies. */
  lemma MapperWithIsFrom(relationType: Option<string>, mani: ManifestationInformation)
    ensures MapperWith(relationType)(mani) == RelationFrom(relationType, mani)
    ensures var r := RelationFrom(relationType, mani).manifestation;
      && r.manifestationId == mani.manifestationId && r.title == mani.title && r.fullTitle == mani.fullTitle
      && r.creators == mani.creators && r.description == mani.description && r.subjects == mani.subjects
      && r.materialTypes == mani.materialTypes
  {
  }

  /**
   * `RelationInformation.onlyPresentationFields`: the relation type, the id
   * and the material types. Unlike the manifestation's projection it does
   * not keep the work types.
   */
  function RelationOnlyPresentationFields(r: RelationInformation): RelationInformation
  {
    RelationInformation(r.relationType, EmptyManifestation.(manifestationId := r.manifestation.manifestationId,
                                                            materialTypes := r.manifestation.materialTypes))
  }

  /** The relation projection keeps type, id and material types, drops the rest, and is idempotent. */
  lemma RelationOnlyPresentationFieldsKeeps(r: RelationInformation)
    ensures var p := RelationOnlyPresentationFields(r);
      && p.relationType == r.relationType
      && p.manifestation.manifestationId == r.manifestation.manifestationId
      && p.manifestation.materialTypes == r.manifestation.materialTypes
      && p.manifestation.workTypes.None? && p.manifestation.title.None?
      && p.manifestation == OnlyPresentationFields(r.manifestation).(workTypes := None)
    ensures RelationOnlyPresentationFields(RelationOnlyPresentationFields(r)) == RelationOnlyPresentationFields(r)
  {
  }

  /**
   * `RelationInformation.equals` as written: when the manifestation fields
   * differ (or the other object is null) it answers true; only when they
   * agree does it compare the relation types.
   */
  predicate RelationEqualsAsWritten(a: RelationInformation, o: Option<RelationInformation>)
  {
    if !ManifestationEquals(a.manifestation, if o.Some? then Some(o.value.manifestation) else None) then true
    else a.relationType == o.value.relationType
  }

  /** `RelationInformation.equals` as evidently intended: the manifestation fields and the relation type agree. */
  predicate RelationEquals(a: RelationInformation, o: Option<RelationInformation>)
  {
    o.Some? && ManifestationEquals(a.manifestation, Some(o.value.manifestation)) && a.relationType == o.value.relationType
  }

  /** The fields `RelationInformation.hashCode` ranges over: the manifestation's hash fields and the type. */
  function RelationHashFields(r: RelationInformation): (ManifestationHashTuple, Option<string>)
  {
    (ManifestationHashFields(r.manifestation), r.relationType)
  }

  /**
   * The equality as written calls two relations with different ids equal,
   * although their hash fields differ, and calls every relation equal to
   * null.
   */
  lemma RelationEqualsAsWrittenBroken()
    ensures var a := RelationInformation(Some("review"), EmptyManifestation.(manifestationId := Some("a")));
      var b := RelationInformation(Some("cover"), EmptyManifestation.(manifestationId := Some("b")));
      && RelationEqualsAsWritten(a, Some(b))
      && RelationHashFields(a) != RelationHashFields(b)
      && !RelationEquals(a, Some(b))
      && RelationEqualsAsWritten(a, None)
  {
    var a := RelationInformation(Some("review"), EmptyManifestation.(manifestationId := Some("a")));
    var b := RelationInformation(Some("cover"), EmptyManifestation.(manifestationId := Some("b")));
    assert a.manifestation.manifestationId != b.manifestation.manifestationId;
  }

  /** The intended equality is equality of the records: reflexive, symmetric, transitive, false for null. */
  lemma RelationEqualsIsEquality(a: RelationInformation, o: Option<RelationInformation>)
    ensures RelationEquals(a, o) <==> o == Some(a)
  {
    if o.Some? {
      ManifestationEqualsIsEquality(a.manifestation, Some(o.value.manifestation));
    }
  }

  /** With the intended equality, equal relations hash over equal fields. */
  lemma RelationHashConsistent(a: RelationInformation, b: RelationInformation)
    requires RelationEquals(a, Some(b))
    ensures RelationHashFields(a) == RelationHashFields(b)
  {
    RelationEqualsIsEquality(a, Some(b));
  }
}
