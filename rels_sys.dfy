/**
 * The rels-sys stream of a repository record, decoded into one uniform
 * shape: the record's id, its parent, its children and whether it is the
 * primary member of its parent, whatever the record kind names them.
 */
module RelsSysDecoding {
  import opened Wrappers
  import opened Strings
  import opened ElementHandling
  import opened SimpleFieldsDecoding

  datatype RelsSys = RelsSys(id: string, parent: Option<string>, children: seq<string>, primary: bool)

  const MissingId := "Rels-Sys doesn't contain id of record"

  /** A `Description` element that carries an `about` attribute. */
  predicate Describes(e: Element)
  {
    e.localName == "Description" && "about" in e.attributes
  }

  /** The id a `Description` names: its `about` value after the first '/', or all of it. */
  function DescribedId(e: Element): (id: string)
    requires Describes(e)
    ensures var about := e.attributes["about"];
      && ('/' !in about ==> id == about)
      && ('/' in about ==> exists k :: 0 <= k < |about| && '/' !in about[..k] && about == about[..k] + ['/'] + id)
  {
    AfterFirstSplit(e.attributes["about"], '/');
    AfterFirst(e.attributes["about"], '/')
  }

  /** What `substring(indexOf(c) + 1)` leaves: all of `s` without `c`, else what follows its first `c`. */
  lemma AfterFirstSplit(s: string, c: char)
    ensures c !in s ==> AfterFirst(s, c) == s
    ensures c in s ==> exists k :: 0 <= k < |s| && c !in s[..k] && s == s[..k] + [c] + AfterFirst(s, c)
  {
    var k := IndexOf(s, c);
    if k >= 0 {
      var pre, post := s[..k], s[k + 1..];
      assert c !in pre by {
        forall j | 0 <= j < |pre| ensures pre[j] != c {
          assert pre[j] == s[j];
        }
      }
      CutAt(s, k);
      assert AfterFirst(s, c) == post;
    } else {
      assert c !in s by {
        forall j | 0 <= j < |s| ensures s[j] != c { }
      }
    }
  }

  /** A string is what comes before an index, the character there, and what follows. */
  lemma CutAt(s: string, k: int)
    requires 0 <= k < |s|
    ensures s == s[..k] + [s[k]] + s[k + 1..]
  {
  }

  /** The id recorded after a run of `element` calls. */
  function IdOf(reports: seq<Element>): Option<string>
  {
    if |reports| == 0 then None
    else
      var e := reports[|reports| - 1];
      if Describes(e) then Some(DescribedId(e)) else IdOf(reports[..|reports| - 1])
  }

  /** The last `Description` with an `about` attribute names the id. */
  lemma {:induction false} IdOfLast(reports: seq<Element>, i: nat)
    requires i < |reports| && Describes(reports[i])
    requires forall j :: i < j < |reports| ==> !Describes(reports[j])
    ensures IdOf(reports) == Some(DescribedId(reports[i]))
  {
    var n := |reports| - 1;
    if i < n {
      forall j | i < j < n
        ensures !Describes(reports[..n][j])
      {
        assert reports[..n][j] == reports[j];
      }
      IdOfLast(reports[..n], i);
    }
  }

  /** Without such a `Description` there is no id. */
  lemma {:induction false} IdOfNone(reports: seq<Element>)
    requires forall j :: 0 <= j < |reports| ==> !Describes(reports[j])
    ensures IdOf(reports) == None
  {
    if |reports| > 0 {
      var n := |reports| - 1;
      forall j | 0 <= j < n
        ensures !Describes(reports[..n][j])
      {
        assert reports[..n][j] == reports[j];
      }
      IdOfNone(reports[..n]);
    }
  }

  /** The first text of an element name in document order, or null. */
  function FirstText(reports: seq<Element>, name: string): Option<string>
  {
    var texts := Texts(reports, name);
    if texts == [] then None else Some(texts[0])
  }

  /**
   * The record a rels-sys stream describes: without an id it fails; a unit
   * reads its work, its members and its primary mark; a work has no parent,
   * reads its members and is always primary; any other record reads its
   * unit and its primary mark and has no children.
   */
  function RelsSysOf(id: Option<string>, reports: seq<Element>): (r: Result<RelsSys, string>)
    ensures r.Err? <==> id.None?
    ensures r.Err? ==> r.error == MissingId
    ensures r.Ok? ==> r.value.id == id.value
    ensures r.Ok? && StartsWith(id.value, "work:") ==> r.value.parent.None? && r.value.primary
    ensures r.Ok? && !StartsWith(id.value, "unit:") && !StartsWith(id.value, "work:") ==> r.value.children == []
  {
    match id
    case None => Err(MissingId)
    case Some(i) =>
      if StartsWith(i, "unit:") then
        assert i[0] == "unit:"[0];
        Ok(RelsSys(i, FirstText(reports, "isMemberOfWork"), Texts(reports, "hasMemberOfUnit"),
                   Texts(reports, "isPrimaryUnitObjectFor") != []))
      else if StartsWith(i, "work:") then
        Ok(RelsSys(i, None, Texts(reports, "hasMemberOfWork"), true))
      else
        Ok(RelsSys(i, FirstText(reports, "isMemberOfUnit"), [], Texts(reports, "isPrimaryBibObjectFor") != []))
  }

  /** `SimpleFieldsWithId`: the simple-field decoder that also records the id. */
  class SimpleFieldsWithId {
    const simple: SimpleFields
    var id: Option<string>
    ghost var reports: seq<Element>

    ghost predicate Valid()
      reads this, simple
    {
      simple.Valid() && simple.reports == reports && id == IdOf(reports)
    }

    /** A decoder fed a whole parse. */
    constructor(events: seq<Event>)
      ensures Valid() && reports == Reports(events)
    {
      simple := new SimpleFields([]);
      id := None;
      reports := [];
      new;
      var parsed := ParseReports(events);
      for i := 0 to |parsed|
        invariant Valid() && reports == parsed[..i]
      {
        Element(parsed[i]);
        assert parsed[..i + 1] == parsed[..i] + [parsed[i]];
      }
      assert parsed[..|parsed|] == parsed;
    }

    /** `element`: a `Description` with `about` sets the id, then the simple fields are updated. */
    method Element(e: Element)
      requires Valid()
      modifies this, simple
      ensures Valid() && reports == old(reports) + [e]
    {
      if Describes(e) {
        id := Some(DescribedId(e));
      }
      simple.Element(e);
      reports := reports + [e];
      assert reports[..|reports| - 1] == old(reports);
    }
  }

  /** The `RelsSys` constructor over a parse. */
  method RelsSysFrom(events: seq<Event>) returns (r: Result<RelsSys, string>)
    ensures r == RelsSysOf(IdOf(Reports(events)), Reports(events))
  {
    var fields := new SimpleFieldsWithId(events);
    if fields.id.None? {
      return Err(MissingId);
    }
    var id := fields.id.value;
    if StartsWith(id, "unit:") {
      r := Ok(RelsSys(id, fields.simple.GetFirst("isMemberOfWork"), fields.simple.GetList("hasMemberOfUnit"),
                      fields.simple.GetFirst("isPrimaryUnitObjectFor") != None));
    } else if StartsWith(id, "work:") {
      r := Ok(RelsSys(id, None, fields.simple.GetList("hasMemberOfWork"), true));
    } else {
      r := Ok(RelsSys(id, fields.simple.GetFirst("isMemberOfUnit"), [],
                      fields.simple.GetFirst("isPrimaryBibObjectFor") != None));
    }
  }

  /** A unit record's primary mark holds iff an `isPrimaryUnitObjectFor` element has text. */
  lemma UnitPrimary(id: string, reports: seq<Element>)
    requires StartsWith(id, "unit:")
    ensures RelsSysOf(Some(id), reports).value.primary <==>
      (exists i :: 0 <= i < |reports| && reports[i].localName == "isPrimaryUnitObjectFor" && reports[i].characters.Some?)
  {
    TextsWitness(reports, "isPrimaryUnitObjectFor");
  }
}
