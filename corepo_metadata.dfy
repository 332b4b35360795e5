/**
 * The decoders of a repository object's metadata, a datastream's metadata
 * and an object's list of datastreams.
 */
module MetaDataDecoding {
  import opened Wrappers
  import opened ElementHandling

  /** A timestamp as the response writes it; its parsing into an instant is not modelled. */
  type Timestamp = string

  /** The element names a metadata handler reads; `modified` is absent for a datastream. */
  datatype Tags = Tags(profile: string, created: string, modified: Option<string>, state: string)
  {
    predicate Distinct()
    {
      && profile != created && profile != state && created != state
      && (modified.Some? ==> modified.value != profile && modified.value != created && modified.value != state)
    }
  }

  const ObjectTags := Tags("objectProfile", "objCreateDate", Some("objLastModDate"), "objState")
  const DataStreamTags := Tags("datastreamProfile", "dsCreateDate", None, "dsState")

  /** The handler's fields; `failed` records the null-pointer failure of parsing a missing timestamp text. */
  datatype Gathered = Gathered(id: Option<string>, created: Option<Timestamp>, modified: Option<Timestamp>, active: Option<bool>, failed: bool)

  const NothingGathered := Gathered(None, None, None, None, false)

  /** The `pid` attribute of a profile element, or null. */
  function Pid(e: Element): Option<string>
  {
    if "pid" in e.attributes then Some(e.attributes["pid"]) else None
  }

  /** A timestamp element whose text is null. */
  predicate NullTimestamp(tags: Tags, e: Element)
  {
    (e.localName == tags.created || tags.modified == Some(e.localName)) && e.characters.None?
  }

  /**
   * One `element` call: the profile sets the id from `pid` (null without
   * it), the timestamp elements set their timestamp, the state element sets
   * active to whether its text is exactly "A", and everything else is
   * ignored; a later element overwrites an earlier one.
   */
  function Step(tags: Tags, g: Gathered, e: Element): Gathered
  {
    if e.localName == tags.profile then g.(id := Pid(e))
    else if NullTimestamp(tags, e) then g.(failed := true)
    else if e.localName == tags.created then g.(created := e.characters)
    else if tags.modified == Some(e.localName) then g.(modified := e.characters)
    else if e.localName == tags.state then g.(active := Some(e.characters == Some("A")))
    else g
  }

  function Gather(tags: Tags, reports: seq<Element>): Gathered
  {
    if |reports| == 0 then NothingGathered
    else Step(tags, Gather(tags, reports[..|reports| - 1]), reports[|reports| - 1])
  }

  /** The last element of a name, if any. */
  function LastNamed(reports: seq<Element>, name: string): (r: Option<Element>)
    ensures r.Some? ==> r.value.localName == name
  {
    if |reports| == 0 then None
    else if reports[|reports| - 1].localName == name then Some(reports[|reports| - 1])
    else LastNamed(reports[..|reports| - 1], name)
  }

  /** `LastNamed` finds the element of that name after which none follows. */
  lemma {:induction false} LastNamedSpec(reports: seq<Element>, name: string)
    ensures LastNamed(reports, name).None? <==> forall j :: 0 <= j < |reports| ==> reports[j].localName != name
    ensures LastNamed(reports, name).Some? ==>
      (exists i :: 0 <= i < |reports| && reports[i] == LastNamed(reports, name).value &&
        forall j :: i < j < |reports| ==> reports[j].localName != name)
  {
    if |reports| > 0 {
      var n := |reports| - 1;
      LastNamedSpec(reports[..n], name);
      if reports[n].localName != name {
        if LastNamed(reports, name).Some? {
          var i :| 0 <= i < n && reports[..n][i] == LastNamed(reports, name).value &&
            forall j :: i < j < n ==> reports[..n][j].localName != name;
          assert reports[i] == reports[..n][i];
          forall j | i < j < |reports| ensures reports[j].localName != name {
            if j < n {
              assert reports[j] == reports[..n][j];
            }
          }
        }
        if forall j :: 0 <= j < n ==> reports[..n][j].localName != name {
          forall j | 0 <= j < |reports| ensures reports[j].localName != name {
            if j < n {
              assert reports[j] == reports[..n][j];
            }
          }
        } else {
          var j :| 0 <= j < n && reports[..n][j].localName == name;
          assert reports[j] == reports[..n][j];
        }
      }
    }
  }

  /** The text of the last element of a name, or null. */
  function LastText(reports: seq<Element>, name: string): Option<string>
  {
    match LastNamed(reports, name)
    case None => None
    case Some(e) => e.characters
  }

  /** Parsing fails iff some timestamp element has no text. */
  lemma {:induction false} GatherFails(tags: Tags, reports: seq<Element>)
    requires tags.Distinct()
    ensures Gather(tags, reports).failed <==> exists i :: 0 <= i < |reports| && NullTimestamp(tags, reports[i])
  {
    if |reports| > 0 {
      var n := |reports| - 1;
      var prefix := reports[..n];
      GatherFails(tags, prefix);
      if exists i :: 0 <= i < |reports| && NullTimestamp(tags, reports[i]) {
        var i :| 0 <= i < |reports| && NullTimestamp(tags, reports[i]);
        if i < n {
          assert prefix[i] == reports[i];
        }
      }
      if exists i :: 0 <= i < n && NullTimestamp(tags, prefix[i]) {
        var i :| 0 <= i < n && NullTimestamp(tags, prefix[i]);
        assert prefix[i] == reports[i];
      }
    }
  }

  /**
   * What a handler gathers: the id is the last profile's `pid`; each
   * timestamp is the last text of its element; active is whether the last
   * state text is exactly "A", and absent without a state element.
   */
  lemma GatherLast(tags: Tags, reports: seq<Element>)
    requires tags.Distinct()
    ensures var g := Gather(tags, reports);
      && g.id == (match LastNamed(reports, tags.profile) case None => None case Some(e) => Pid(e))
      && (!g.failed ==> g.created == LastText(reports, tags.created))
      && (!g.failed ==> g.modified == (if tags.modified.Some? then LastText(reports, tags.modified.value) else None))
      && g.active == (match LastNamed(reports, tags.state) case None => None case Some(e) => Some(e.characters == Some("A")))
  {
    GatherLastId(tags, reports);
    GatherLastTimestamps(tags, reports);
    GatherLastActive(tags, reports);
  }

  lemma {:induction false} GatherLastId(tags: Tags, reports: seq<Element>)
    requires tags.Distinct()
    ensures Gather(tags, reports).id == (match LastNamed(reports, tags.profile) case None => None case Some(e) => Pid(e))
  {
    if |reports| > 0 {
      GatherLastId(tags, reports[..|reports| - 1]);
    }
  }

  lemma {:induction false} GatherLastTimestamps(tags: Tags, reports: seq<Element>)
    requires tags.Distinct()
    ensures var g := Gather(tags, reports);
      && (!g.failed ==> g.created == LastText(reports, tags.created))
      && (!g.failed ==> g.modified == (if tags.modified.Some? then LastText(reports, tags.modified.value) else None))
  {
    if |reports| > 0 {
      GatherLastTimestamps(tags, reports[..|reports| - 1]);
    }
  }

  lemma {:induction false} GatherLastActive(tags: Tags, reports: seq<Element>)
    requires tags.Distinct()
    ensures Gather(tags, reports).active
      == (match LastNamed(reports, tags.state) case None => None case Some(e) => Some(e.characters == Some("A")))
  {
    if |reports| > 0 {
      GatherLastActive(tags, reports[..|reports| - 1]);
    }
  }

  /** Once a timestamp text was missing, the parse stays failed. */
  lemma {:induction false} FailedStays(tags: Tags, reports: seq<Element>, k: nat)
    requires k <= |reports| && Gather(tags, reports[..k]).failed
    ensures Gather(tags, reports).failed
    decreases |reports| - k
  {
    if k < |reports| {
      assert reports[..k + 1][..k] == reports[..k];
      FailedStays(tags, reports, k + 1);
    } else {
      assert reports[..k] == reports;
    }
  }

  /** Where the parse stops, at the end or at a failure, it has gathered what the whole parse gathers. */
  lemma ParseStopped(tags: Tags, reports: seq<Element>, k: nat)
    requires k <= |reports| && (k == |reports| || Gather(tags, reports[..k]).failed)
    ensures Gather(tags, reports[..k]).failed == Gather(tags, reports).failed
    ensures !Gather(tags, reports[..k]).failed ==> Gather(tags, reports[..k]) == Gather(tags, reports)
  {
    if Gather(tags, reports[..k]).failed {
      FailedStays(tags, reports, k);
    } else {
      assert reports[..k] == reports;
    }
  }

  /** How constructing the metadata fails. */
  datatype MetaError = NullText | IllegalArgument(message: string)

  datatype ObjectMetaData = ObjectMetaData(id: string, created: Timestamp, modified: Timestamp, active: bool)
  datatype DataStreamMetaData = DataStreamMetaData(id: string, created: Timestamp, active: bool)

  /** The `ObjectMetaData` checks: pid, created, modified and active must be present, checked in that order. */
  function ObjectMetaDataOf(g: Gathered): (r: Result<ObjectMetaData, MetaError>)
    ensures r.Ok? <==> !g.failed && g.id.Some? && g.created.Some? && g.modified.Some? && g.active.Some?
    ensures r.Ok? ==> r.value == ObjectMetaData(g.id.value, g.created.value, g.modified.value, g.active.value)
    ensures r.Err? && !g.failed ==> r.error.IllegalArgument?
    ensures !g.failed && g.id.None? ==> r == Err(IllegalArgument("Object data is not complete - missing pid"))
  {
    if g.failed then Err(NullText)
    else if g.id.None? then Err(IllegalArgument("Object data is not complete - missing pid"))
    else if g.created.None? then Err(IllegalArgument("Object data is not complete - missing created"))
    else if g.modified.None? then Err(IllegalArgument("Object data is not complete - missing modified"))
    else if g.active.None? then Err(IllegalArgument("Object data is not complete - missing active"))
    else Ok(ObjectMetaData(g.id.value, g.created.value, g.modified.value, g.active.value))
  }

  /** The `DataStreamMetaData` checks: pid, created and active must be present, checked in that order. */
  function DataStreamMetaDataOf(g: Gathered): (r: Result<DataStreamMetaData, MetaError>)
    ensures r.Ok? <==> !g.failed && g.id.Some? && g.created.Some? && g.active.Some?
    ensures r.Ok? ==> r.value == DataStreamMetaData(g.id.value, g.created.value, g.active.value)
    ensures r.Err? && !g.failed ==> r.error.IllegalArgument?
    ensures !g.failed && g.id.None? ==> r == Err(IllegalArgument("Datastream data is not complete - missing pid"))
  {
    if g.failed then Err(NullText)
    else if g.id.None? then Err(IllegalArgument("Datastream data is not complete - missing pid"))
    else if g.created.None? then Err(IllegalArgument("Datastream data is not complete - missing created"))
    else if g.active.None? then Err(IllegalArgument("Datastream data is not complete - missing active"))
    else Ok(DataStreamMetaData(g.id.value, g.created.value, g.active.value))
  }

  /** An object's metadata is its last profile's pid, its last timestamps and its last state. */
  lemma ObjectMetaDataOfDocument(reports: seq<Element>)
    ensures var r := ObjectMetaDataOf(Gather(ObjectTags, reports));
      && (r.Err? <==> (exists i :: 0 <= i < |reports| && NullTimestamp(ObjectTags, reports[i]))
                      || LastNamed(reports, "objectProfile").None? || Pid(LastNamed(reports, "objectProfile").value).None?
                      || LastText(reports, "objCreateDate").None? || LastText(reports, "objLastModDate").None?
                      || LastNamed(reports, "objState").None?)
      && (r.Ok? ==>
            && r.value.id == Pid(LastNamed(reports, "objectProfile").value).value
            && r.value.created == LastText(reports, "objCreateDate").value
            && r.value.modified == LastText(reports, "objLastModDate").value
            && (r.value.active <==> LastText(reports, "objState") == Some("A")))
  {
    GatherFails(ObjectTags, reports);
    GatherLast(ObjectTags, reports);
  }

  /** A datastream's metadata is its last profile's pid, its last creation timestamp and its last state. */
  lemma DataStreamMetaDataOfDocument(reports: seq<Element>)
    ensures var r := DataStreamMetaDataOf(Gather(DataStreamTags, reports));
      && (r.Err? <==> (exists i :: 0 <= i < |reports| && NullTimestamp(DataStreamTags, reports[i]))
                      || LastNamed(reports, "datastreamProfile").None? || Pid(LastNamed(reports, "datastreamProfile").value).None?
                      || LastText(reports, "dsCreateDate").None? || LastNamed(reports, "dsState").None?)
      && (r.Ok? ==>
            && r.value.id == Pid(LastNamed(reports, "datastreamProfile").value).value
            && r.value.created == LastText(reports, "dsCreateDate").value
            && (r.value.active <==> LastText(reports, "dsState") == Some("A")))
  {
    GatherFails(DataStreamTags, reports);
    GatherLast(DataStreamTags, reports);
  }

  /** The metadata handler: the fields one parse sets. */
  class MetaDataHandler {
    const tags: Tags
    var id: Option<string>
    var created: Option<Timestamp>
    var modified: Option<Timestamp>
    var active: Option<bool>
    var failed: bool
    ghost var reports: seq<Element>

    function State(): Gathered
      reads this
    {
      Gathered(id, created, modified, active, failed)
    }

    /** A handler fed a whole parse; a missing timestamp text stops the parse. */
    constructor(tags: Tags, events: seq<Event>)
      ensures this.tags == tags
      ensures failed == Gather(tags, Reports(events)).failed
      ensures !failed ==> State() == Gather(tags, Reports(events))
    {
      this.tags := tags;
      id, created, modified, active, failed := None, None, None, None, false;
      reports := [];
      new;
      var parsed := ParseReports(events);
      var i := 0;
      while i < |parsed| && !failed
        invariant 0 <= i <= |parsed| && this.tags == tags
        invariant reports == parsed[..i] && State() == Gather(tags, reports)
      {
        Element(parsed[i]);
        assert parsed[..i + 1] == parsed[..i] + [parsed[i]];
        i := i + 1;
      }
      ParseStopped(tags, parsed, i);
    }

    /** `element`: set the field the element names; a null timestamp text fails. */
    method Element(e: Element)
      requires State() == Gather(tags, reports)
      modifies this
      ensures State() == Gather(tags, reports) && reports == old(reports) + [e]
    {
      if e.localName == tags.profile {
        id := Pid(e);
      } else if NullTimestamp(tags, e) {
        failed := true;
      } else if e.localName == tags.created {
        created := e.characters;
      } else if tags.modified == Some(e.localName) {
        modified := e.characters;
      } else if e.localName == tags.state {
        active := Some(e.characters == Some("A"));
      }
      reports := reports + [e];
      assert reports[..|reports| - 1] == old(reports);
    }
  }

  /** The `ObjectMetaData` constructor over a parse. */
  method ObjectMetaDataFrom(events: seq<Event>) returns (r: Result<ObjectMetaData, MetaError>)
    ensures r == ObjectMetaDataOf(Gather(ObjectTags, Reports(events)))
  {
    var handler := new MetaDataHandler(ObjectTags, events);
    if handler.failed {
      return Err(NullText);
    }
    if handler.id.None? {
      return Err(IllegalArgument("Object data is not complete - missing pid"));
    }
    if handler.created.None? {
      return Err(IllegalArgument("Object data is not complete - missing created"));
    }
    if handler.modified.None? {
      return Err(IllegalArgument("Object data is not complete - missing modified"));
    }
    if handler.active.None? {
      return Err(IllegalArgument("Object data is not complete - missing active"));
    }
    r := Ok(ObjectMetaData(handler.id.value, handler.created.value, handler.modified.value, handler.active.value));
  }

  /** The `DataStreamMetaData` constructor over a parse. */
  method DataStreamMetaDataFrom(events: seq<Event>) returns (r: Result<DataStreamMetaData, MetaError>)
    ensures r == DataStreamMetaDataOf(Gather(DataStreamTags, Reports(events)))
  {
    var handler := new MetaDataHandler(DataStreamTags, events);
    if handler.failed {
      return Err(NullText);
    }
    if handler.id.None? {
      return Err(IllegalArgument("Datastream data is not complete - missing pid"));
    }
    if handler.created.None? {
      return Err(IllegalArgument("Datastream data is not complete - missing created"));
    }
    if handler.active.None? {
      return Err(IllegalArgument("Datastream data is not complete - missing active"));
    }
    r := Ok(DataStreamMetaData(handler.id.value, handler.created.value, handler.active.value));
  }

  /** The ids the datastream list names: the `dsid` of every `datastream` element that has one. */
  function StreamIds(reports: seq<Element>): set<string>
  {
    set i | 0 <= i < |reports| && reports[i].localName == "datastream" && "dsid" in reports[i].attributes
      :: reports[i].attributes["dsid"]
  }

  /** The datastream-list handler: the set of ids gathered so far. */
  class DataStreamsHandler {
    var streams: set<string>

    /** A handler fed a whole parse. */
    constructor(events: seq<Event>)
      ensures streams == StreamIds(Reports(events))
    {
      streams := {};
      new;
      var parsed := ParseReports(events);
      for i := 0 to |parsed|
        invariant streams == StreamIds(parsed[..i])
      {
        Element(parsed[i]);
        assert StreamIds(parsed[..i + 1]) == StreamIds(parsed[..i]) + StreamIds([parsed[i]]) by {
          StreamIdsSnoc(parsed[..i], parsed[i]);
          assert parsed[..i + 1] == parsed[..i] + [parsed[i]];
        }
      }
      assert parsed[..|parsed|] == parsed;
    }

    /** `element`: a `datastream` element's `dsid`, when it has one, joins the set. */
    method Element(e: Element)
      modifies this
      ensures streams == old(streams) + StreamIds([e])
    {
      if e.localName == "datastream" && "dsid" in e.attributes {
        streams := streams + {e.attributes["dsid"]};
        assert StreamIds([e]) == {e.attributes["dsid"]} by {
          assert [e][0] == e;
        }
      } else {
        assert StreamIds([e]) == {};
      }
    }
  }

  lemma StreamIdsSnoc(reports: seq<Element>, e: Element)
    ensures StreamIds(reports + [e]) == StreamIds(reports) + StreamIds([e])
  {
    var all := reports + [e];
    forall x | x in StreamIds(all) ensures x in StreamIds(reports) + StreamIds([e]) {
      var i :| 0 <= i < |all| && all[i].localName == "datastream" && "dsid" in all[i].attributes && all[i].attributes["dsid"] == x;
      if i < |reports| {
        assert all[i] == reports[i];
      } else {
        assert [e][0] == all[i];
      }
    }
    forall x | x in StreamIds(reports) + StreamIds([e]) ensures x in StreamIds(all) {
      if x in StreamIds(reports) {
        var i :| 0 <= i < |reports| && reports[i].localName == "datastream" && "dsid" in reports[i].attributes && reports[i].attributes["dsid"] == x;
        assert all[i] == reports[i];
      } else {
        assert all[|reports|] == [e][0];
      }
    }
  }

  /** The `DataStreams` constructor over a parse: the set of named datastreams. */
  method DataStreamsFrom(events: seq<Event>) returns (streams: set<string>)
    ensures var reports := Reports(events);
      forall s :: s in streams <==>
        (exists i :: 0 <= i < |reports| && reports[i].localName == "datastream" &&
                     "dsid" in reports[i].attributes && reports[i].attributes["dsid"] == s)
  {
    var handler := new DataStreamsHandler(events);
    streams := handler.streams;
  }
}
