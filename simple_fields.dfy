/**
 * The decoder that gathers every text-only element of a content-service
 * response into a map from the element's local name to its texts, in
 * document order.
 */
module SimpleFieldsDecoding {
  import opened Wrappers
  import opened ElementHandling

  type Fields = map<string, seq<string>>

  /** One `element` call: non-null text is appended to its name's list; null text is ignored. */
  function AddField(fields: Fields, e: Element): Fields
  {
    if e.characters.None? then fields
    else fields[e.localName := (if e.localName in fields then fields[e.localName] else []) + [e.characters.value]]
  }

  /** The map after a run of `element` calls. */
  function FieldsOf(reports: seq<Element>): Fields
  {
    if |reports| == 0 then map[]
    else AddField(FieldsOf(reports[..|reports| - 1]), reports[|reports| - 1])
  }

  /** The non-null texts of the elements named `name`, in document order. */
  function Texts(reports: seq<Element>, name: string): seq<string>
  {
    if |reports| == 0 then []
    else
      (if reports[0].localName == name && reports[0].characters.Some? then [reports[0].characters.value] else [])
      + Texts(reports[1..], name)
  }

  lemma {:induction false} TextsSnoc(reports: seq<Element>, e: Element, name: string)
    ensures Texts(reports + [e], name) ==
      Texts(reports, name) + (if e.localName == name && e.characters.Some? then [e.characters.value] else [])
  {
    if |reports| == 0 {
      assert reports + [e] == [e];
    } else {
      assert (reports + [e])[1..] == reports[1..] + [e];
      TextsSnoc(reports[1..], e, name);
    }
  }

  /** A name is in the map iff some element of that name had text, and then it holds all those texts in order. */
  lemma {:induction false} FieldsOfTexts(reports: seq<Element>, name: string)
    ensures name in FieldsOf(reports) <==> Texts(reports, name) != []
    ensures name in FieldsOf(reports) ==> FieldsOf(reports)[name] == Texts(reports, name)
  {
    if |reports| > 0 {
      var n := |reports| - 1;
      FieldsOfTexts(reports[..n], name);
      TextsSnoc(reports[..n], reports[n], name);
      assert reports[..n] + [reports[n]] == reports;
    }
  }

  /** Some element of a name has text iff the texts of that name are not empty. */
  lemma {:induction false} TextsWitness(reports: seq<Element>, name: string)
    ensures Texts(reports, name) != [] <==>
      (exists i :: 0 <= i < |reports| && reports[i].localName == name && reports[i].characters.Some?)
  {
    if |reports| > 0 {
      TextsWitness(reports[1..], name);
      if exists i :: 1 <= i < |reports| && reports[i].localName == name && reports[i].characters.Some? {
        var i :| 1 <= i < |reports| && reports[i].localName == name && reports[i].characters.Some?;
        assert reports[1..][i - 1] == reports[i];
      }
      if exists i :: 0 <= i < |reports[1..]| && reports[1..][i].localName == name && reports[1..][i].characters.Some? {
        var i :| 0 <= i < |reports[1..]| && reports[1..][i].localName == name && reports[1..][i].characters.Some?;
        assert reports[i + 1] == reports[1..][i];
      }
    }
  }

  /** The decoder object: its map, and the `element` calls that built it. */
  class SimpleFields {
    var fields: Fields
    ghost var reports: seq<Element>

    ghost predicate Valid()
      reads this
    {
      fields == FieldsOf(reports)
    }

    /** A decoder fed a whole parse. */
    constructor(events: seq<Event>)
      ensures Valid() && reports == Reports(events)
    {
      fields := map[];
      reports := [];
      new;
      var parsed := ParseReports(events);
      for i := 0 to |parsed|
        invariant Valid() && reports == parsed[..i]
      {
        Element(parsed[i]);
        assert parsed[..i + 1] == parsed[..i] + [parsed[i]];
      }
      assert parsed[..|parsed|] == parsed;
    }

    /** `element`: append non-null text to its name's list. */
    method Element(e: Element)
      requires Valid()
      modifies this
      ensures Valid() && reports == old(reports) + [e]
    {
      if e.characters.Some? {
        var before := if e.localName in fields then fields[e.localName] else [];
        fields := fields[e.localName := before + [e.characters.value]];
      }
      reports := reports + [e];
      assert reports[..|reports| - 1] == old(reports);
    }

    /** `getFirst`: null for an absent name, else the first text in document order. */
    function GetFirst(key: string): (r: Option<string>)
      requires Valid()
      reads this
      ensures r.None? <==> Texts(reports, key) == []
      ensures r.Some? ==> r.value == Texts(reports, key)[0]
    {
      FieldsOfTexts(reports, key);
      if key in fields then Some(fields[key][0]) else None
    }

    /** `getList`: every text of that name in document order; empty for an absent name. */
    function GetList(key: string): (r: seq<string>)
      requires Valid()
      reads this
      ensures r == Texts(reports, key)
    {
      FieldsOfTexts(reports, key);
      if key in fields then fields[key] else []
    }

    /** `getFields`: the whole map, one non-empty list per name that had text. */
    function GetFields(): (r: Fields)
      requires Valid()
      reads this
      ensures forall k :: k in r <==> Texts(reports, k) != []
      ensures forall k :: k in r ==> r[k] == Texts(reports, k)
    {
      forall k ensures k in fields <==> Texts(reports, k) != [] {
        FieldsOfTexts(reports, k);
      }
      forall k | k in fields ensures fields[k] == Texts(reports, k) {
        FieldsOfTexts(reports, k);
      }
      fields
    }
  }
}
