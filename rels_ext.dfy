/** The known external relation kinds between records, and their names in the rels-ext stream. */
module RelsExtTypes {
  import opened Wrappers

  datatype RelsExtType =
    | ContinuedIn | Continues | DiscussedIn | Discusses
    | HasAdaptation | HasAnalysis | HasCreatorDescription | HasDescriptionFromPublisher
    | HasManuscript | HasReview | HasSoundtrack
    | IsAdaptationOf | IsAnalysisOf | IsDescriptionFromPublisherOf
    | IsManuscriptOf | IsReviewOf | IsSoundtrackOfGame | IsSoundtrackOfMovie

  /** `getText`: the element name a relation kind is stored under. */
  function Text(t: RelsExtType): string
  {
    match t
    case ContinuedIn => "continuedIn"
    case Continues => "continues"
    case DiscussedIn => "discussedIn"
    case Discusses => "discusses"
    case HasAdaptation => "hasAdaptation"
    case HasAnalysis => "hasAnalysis"
    case HasCreatorDescription => "hasCreatorDescription"
    case HasDescriptionFromPublisher => "hasDescriptionFromPublisher"
    case HasManuscript => "hasManuscript"
    case HasReview => "hasReview"
    case HasSoundtrack => "hasSoundtrack"
    case IsAdaptationOf => "isAdaptationOf"
    case IsAnalysisOf => "isAnalysisOf"
    case IsDescriptionFromPublisherOf => "isDescriptionFromPublisherOf"
    case IsManuscriptOf => "isManuscriptOf"
    case IsReviewOf => "isReviewOf"
    case IsSoundtrackOfGame => "isSoundtrackOfGame"
    case IsSoundtrackOfMovie => "isSoundtrackOfMovie"
  }

  /** Every kind, in declaration order (the enum's ordinal order). */
  const All: seq<RelsExtType> := [
    ContinuedIn, Continues, DiscussedIn, Discusses,
    HasAdaptation, HasAnalysis, HasCreatorDescription, HasDescriptionFromPublisher,
    HasManuscript, HasReview, HasSoundtrack,
    IsAdaptationOf, IsAnalysisOf, IsDescriptionFromPublisherOf,
    IsManuscriptOf, IsReviewOf, IsSoundtrackOfGame, IsSoundtrackOfMovie]

  /** Every kind is listed, exactly once. */
  lemma AllKinds(t: RelsExtType)
    ensures t in All
    ensures |All| == 18
    ensures forall i, j :: 0 <= i < j < |All| ==> All[i] != All[j]
  {
  }

  /**
   * `from`: the kind a text names, or null; the static lookup table built
   * from every kind's text, written out.
   */
  function From(text: string): (r: Option<RelsExtType>)
  {
    match text
    case "continuedIn" => Some(ContinuedIn)
    case "continues" => Some(Continues)
    case "discussedIn" => Some(DiscussedIn)
    case "discusses" => Some(Discusses)
    case "hasAdaptation" => Some(HasAdaptation)
    case "hasAnalysis" => Some(HasAnalysis)
    case "hasCreatorDescription" => Some(HasCreatorDescription)
    case "hasDescriptionFromPublisher" => Some(HasDescriptionFromPublisher)
    case "hasManuscript" => Some(HasManuscript)
    case "hasReview" => Some(HasReview)
    case "hasSoundtrack" => Some(HasSoundtrack)
    case "isAdaptationOf" => Some(IsAdaptationOf)
    case "isAnalysisOf" => Some(IsAnalysisOf)
    case "isDescriptionFromPublisherOf" => Some(IsDescriptionFromPublisherOf)
    case "isManuscriptOf" => Some(IsManuscriptOf)
    case "isReviewOf" => Some(IsReviewOf)
    case "isSoundtrackOfGame" => Some(IsSoundtrackOfGame)
    case "isSoundtrackOfMovie" => Some(IsSoundtrackOfMovie)
    case _ => None
  }

  /** `from(t.getText()) == t` for every kind. */
  lemma FromText(t: RelsExtType)
    ensures From(Text(t)) == Some(t)
  {
  }

  /** A kind `from` finds has the text it was given. */
  lemma FromFound(text: string)
    ensures From(text).Some? ==> Text(From(text).value) == text
  {
    match text
    case "continuedIn" =>
    case "continues" =>
    case "discussedIn" =>
    case "discusses" =>
    case "hasAdaptation" =>
    case "hasAnalysis" =>
    case "hasCreatorDescription" =>
    case "hasDescriptionFromPublisher" =>
    case "hasManuscript" =>
    case "hasReview" =>
    case "hasSoundtrack" =>
    case "isAdaptationOf" =>
    case "isAnalysisOf" =>
    case "isDescriptionFromPublisherOf" =>
    case "isManuscriptOf" =>
    case "isReviewOf" =>
    case "isSoundtrackOfGame" =>
    case "isSoundtrackOfMovie" =>
    case _ =>
  }

  /** `from` of any other string is null. */
  lemma FromOnlyTexts(text: string)
    ensures From(text).Some? ==> Text(From(text).value) == text
    ensures From(text).None? ==> forall t :: Text(t) != text
  {
    FromFound(text);
    forall t ensures From(text).None? ==> Text(t) != text {
      FromText(t);
    }
  }

  /** No two kinds share a text, as building the lookup table from the texts requires. */
  lemma TextsDistinct(a: RelsExtType, b: RelsExtType)
    ensures Text(a) == Text(b) ==> a == b
  {
    FromText(a);
    FromText(b);
  }
}

/** The rels-ext stream of a unit: for each known relation kind, the related record ids in document order. */
module RelsExtDecoding {
  import opened Wrappers
  import opened ElementHandling
  import opened SimpleFieldsDecoding
  import opened RelsExtTypes

  datatype RelsExt = RelsExt(relations: map<RelsExtType, seq<string>>)

  /** The constructor's table: each field whose name is a kind's text, under that kind; other fields dropped. */
  function RelsExtOf(fields: Fields): (r: RelsExt)
    ensures forall t :: t in r.relations <==> Text(t) in fields
    ensures forall t :: t in r.relations ==> r.relations[t] == fields[Text(t)]
  {
    forall s1, s2 | s1 in fields && From(s1).Some? && s2 in fields && From(s2).Some? && From(s1).value == From(s2).value
      ensures s1 == s2
    {
      FromOnlyTexts(s1);
      FromOnlyTexts(s2);
    }
    forall t ensures From(Text(t)) == Some(t) {
      FromText(t);
    }
    forall s | s in fields && From(s).Some? ensures Text(From(s).value) == s {
      FromOnlyTexts(s);
    }
    RelsExt(map s | s in fields && From(s).Some? :: From(s).value := fields[s])
  }

  /** `get`: a kind's ids, or the empty list. */
  function Get(r: RelsExt, t: RelsExtType): seq<string>
  {
    if t in r.relations then r.relations[t] else []
  }

  /** A kind's ids are the texts of its elements, in document order; no known kind means an empty table. */
  lemma GetInDocumentOrder(reports: seq<Element>, t: RelsExtType)
    ensures Get(RelsExtOf(FieldsOf(reports)), t) == Texts(reports, Text(t))
    ensures (forall k :: Texts(reports, Text(k)) == []) ==> RelsExtOf(FieldsOf(reports)).relations == map[]
  {
    FieldsOfTexts(reports, Text(t));
    var r := RelsExtOf(FieldsOf(reports));
    if forall k :: Texts(reports, Text(k)) == [] {
      forall k ensures k !in r.relations {
        FieldsOfTexts(reports, Text(k));
      }
    }
  }

  /** `forEach`: the present kinds with their ids, in the table's (ordinal) order. */
  function Entries(r: RelsExt, kinds: seq<RelsExtType>): seq<(RelsExtType, seq<string>)>
  {
    if |kinds| == 0 then []
    else (if kinds[0] in r.relations then [(kinds[0], r.relations[kinds[0]])] else []) + Entries(r, kinds[1..])
  }

  /** Every visited entry is a present kind of the walked order, with its ids. */
  lemma {:induction false} EntriesValid(r: RelsExt, kinds: seq<RelsExtType>)
    ensures forall i :: 0 <= i < |Entries(r, kinds)| ==>
      && Entries(r, kinds)[i].0 in kinds
      && Entries(r, kinds)[i].0 in r.relations
      && Entries(r, kinds)[i].1 == r.relations[Entries(r, kinds)[i].0]
  {
    if |kinds| > 0 {
      EntriesValid(r, kinds[1..]);
      var rest := Entries(r, kinds[1..]);
      var head: seq<(RelsExtType, seq<string>)> := if kinds[0] in r.relations then [(kinds[0], r.relations[kinds[0]])] else [];
      var es := head + rest;
      assert Entries(r, kinds) == es;
      forall i | 0 <= i < |es|
        ensures es[i].0 in kinds && es[i].0 in r.relations && es[i].1 == r.relations[es[i].0]
      {
        if i < |head| {
          assert es[i] == head[i];
        } else {
          assert es[i] == rest[i - |head|];
          var k :| 0 <= k < |kinds[1..]| && kinds[1..][k] == es[i].0;
          assert kinds[k + 1] == es[i].0;
        }
      }
    }
  }

  /** Every present kind of the walked order is visited. */
  lemma {:induction false} EntriesComplete(r: RelsExt, kinds: seq<RelsExtType>, t: RelsExtType)
    requires t in r.relations && t in kinds
    ensures exists i :: 0 <= i < |Entries(r, kinds)| && Entries(r, kinds)[i].0 == t
  {
    var rest := Entries(r, kinds[1..]);
    var head: seq<(RelsExtType, seq<string>)> := if kinds[0] in r.relations then [(kinds[0], r.relations[kinds[0]])] else [];
    var es := head + rest;
    assert Entries(r, kinds) == es;
    if kinds[0] == t {
      assert es[0].0 == t;
    } else {
      var k :| 0 <= k < |kinds| && kinds[k] == t;
      assert kinds[1..][k - 1] == t;
      EntriesComplete(r, kinds[1..], t);
      var i :| 0 <= i < |rest| && rest[i].0 == t;
      assert es[|head| + i] == rest[i];
    }
  }

  /** No kind is visited twice when the walked order lists each kind once. */
  lemma {:induction false} EntriesDistinct(r: RelsExt, kinds: seq<RelsExtType>)
    requires forall i, j :: 0 <= i < j < |kinds| ==> kinds[i] != kinds[j]
    ensures forall i, j :: 0 <= i < j < |Entries(r, kinds)| ==> Entries(r, kinds)[i].0 != Entries(r, kinds)[j].0
  {
    if |kinds| > 0 {
      EntriesDistinct(r, kinds[1..]);
      EntriesValid(r, kinds[1..]);
      var rest := Entries(r, kinds[1..]);
      var head: seq<(RelsExtType, seq<string>)> := if kinds[0] in r.relations then [(kinds[0], r.relations[kinds[0]])] else [];
      var es := head + rest;
      assert Entries(r, kinds) == es;
      assert kinds[0] !in kinds[1..] by {
        forall k | 0 <= k < |kinds[1..]| ensures kinds[1..][k] != kinds[0] {
          assert kinds[1..][k] == kinds[k + 1];
        }
      }
      forall i, j | 0 <= i < j < |es|
        ensures es[i].0 != es[j].0
      {
        assert es[j] == rest[j - |head|];
        if i < |head| {
          assert es[i] == head[i];
        } else {
          assert es[i] == rest[i - |head|];
        }
      }
    }
  }

  /** `forEach` over the table visits each present kind exactly once, with its ids. */
  lemma ForEachOnce(r: RelsExt, t: RelsExtType)
    ensures t in r.relations <==> exists i :: 0 <= i < |Entries(r, All)| && Entries(r, All)[i].0 == t
    ensures forall i, j :: 0 <= i < j < |Entries(r, All)| ==> Entries(r, All)[i].0 != Entries(r, All)[j].0
  {
    AllKinds(t);
    EntriesValid(r, All);
    EntriesDistinct(r, All);
    if t in r.relations {
      EntriesComplete(r, All, t);
    }
  }

  /** The `RelsExt` constructor over a parse. */
  method RelsExtFrom(events: seq<Event>) returns (r: RelsExt)
    ensures r == RelsExtOf(FieldsOf(Reports(events)))
  {
    var fields := new SimpleFields(events);
    r := RelsExtOf(fields.GetFields());
  }
}
