/** The update checker's decisions: the key order `save_config` writes,
    whether a check is due, and what `check_for_updates` returns and
    records. The configuration is a JSON object, kept as its list of
    fields in insertion order. The network answer, the clock, ISO date
    parsing and PEP 440 version parsing and ordering are parameters. */
module Updates {
  import opened Maybe
  import PyText
  import PyList
  import Changelog

  // ---------------------------------------------------------------------
  // JSON values and objects
  // ---------------------------------------------------------------------

  datatype Value =
    | Str(s: string)
    | Num(n: int)
    | Bool(b: bool)
    | Null
    | Arr(items: seq<Value>)
    | Obj(fields: seq<Field>)

  datatype Field = Field(key: string, value: Value)

  /** Python's truth value of a decoded JSON value. */
  predicate Falsy(v: Value)
  {
    match v
    case Str(s) => s == ""
    case Num(n) => n == 0
    case Bool(b) => !b
    case Null => true
    case Arr(items) => items == []
    case Obj(fields) => fields == []
  }

  /** A dictionary's fields: no key twice. */
  predicate DistinctKeys(fields: seq<Field>)
  {
    forall i, j :: 0 <= i < j < |fields| ==> fields[i].key != fields[j].key
  }

  /** The index of the field named `k`, or the length when there is
      none. */
  function IndexOf(fields: seq<Field>, k: string): (i: nat)
    ensures i <= |fields|
    ensures i < |fields| ==> fields[i].key == k
    ensures forall j :: 0 <= j < i ==> fields[j].key != k
  {
    if fields == [] then 0
    else if fields[0].key == k then 0
    else 1 + IndexOf(fields[1..], k)
  }

  /** `dict.get(k)`. */
  function Get(fields: seq<Field>, k: string): (r: Option<Value>)
    ensures r.None? <==> forall j :: 0 <= j < |fields| ==> fields[j].key != k
  {
    var i := IndexOf(fields, k);
    if i < |fields| then Some(fields[i].value) else None
  }

  /** The configuration as `json.load` gives it: its keys distinct, and
      those of `update_check` too when that is an object. */
  predicate IsDict(config: seq<Field>)
  {
    DistinctKeys(config) &&
    (Get(config, UpdateCheck).Some? && Get(config, UpdateCheck).value.Obj? ==>
       DistinctKeys(Get(config, UpdateCheck).value.fields))
  }

  /** Looking up a field that sits at a known index of a dictionary. */
  lemma GetAt(fields: seq<Field>, i: nat)
    requires DistinctKeys(fields) && i < |fields|
    ensures Get(fields, fields[i].key) == Some(fields[i].value)
  {
  }

  /** `d[k] = v`: the value replaced in place when the key is there,
      otherwise a field appended at the end. */
  function SetKey(fields: seq<Field>, k: string, v: Value): (r: seq<Field>)
    ensures |r| == |fields| || |r| == |fields| + 1
  {
    var i := IndexOf(fields, k);
    if i < |fields| then fields[i := Field(k, v)] else fields + [Field(k, v)]
  }

  /** Setting a key gives it the value, keeps every other key's value and
      the keys' order, and keeps the keys distinct. */
  lemma SetKeyFacts(fields: seq<Field>, k: string, v: Value)
    requires DistinctKeys(fields)
    ensures var r := SetKey(fields, k, v);
            DistinctKeys(r) && Get(r, k) == Some(v) &&
            (forall q :: q != k ==> Get(r, q) == Get(fields, q)) &&
            (forall j :: 0 <= j < |fields| ==> r[j].key == fields[j].key) &&
            (Get(fields, k).None? ==> |r| == |fields| + 1)
  {
    var r := SetKey(fields, k, v);
    var i := IndexOf(fields, k);
    assert forall j :: 0 <= j < |fields| ==> r[j].key == fields[j].key;
    GetAt(r, if i < |fields| then i else |fields|);
    forall q | q != k ensures Get(r, q) == Get(fields, q) {
      var a := IndexOf(fields, q);
      var b := IndexOf(r, q);
      if a < |fields| {
        GetAt(r, a);
        GetAt(fields, a);
      }
    }
  }

  // ---------------------------------------------------------------------
  // save_config
  // ---------------------------------------------------------------------

  const UpdateCheck: string := "update_check"
  const RecentSession: string := "recent_session"

  predicate Ordinary(f: Field)
  {
    f.key != UpdateCheck && f.key != RecentSession
  }

  /** The field named `k`, as a list of at most one: empty when no field
      has that key, otherwise the first field that has it. */
  function Only(fields: seq<Field>, k: string): (r: seq<Field>)
    ensures |r| <= 1
    ensures r == [] <==> forall j :: 0 <= j < |fields| ==> fields[j].key != k
    ensures forall j :: 0 <= j < |fields| && fields[j].key == k && (forall i :: 0 <= i < j ==> fields[i].key != k) ==>
              r == [fields[j]]
  {
    match Get(fields, k)
    case None => []
    case Some(v) => [Field(k, v)]
  }

  /** The object `save_config` hands to `json.dump`: `update_check` first
      and `recent_session` second when present, then every other field in
      its order. */
  function SaveConfig(config: seq<Field>): seq<Field>
  {
    Only(config, UpdateCheck) + Only(config, RecentSession) + PyList.Filter(config, Ordinary)
  }

  /** The two front fields, when present, come in that order. */
  lemma SaveConfigFront(config: seq<Field>)
    ensures var r := SaveConfig(config);
            (Get(config, UpdateCheck).Some? ==> r[0] == Field(UpdateCheck, Get(config, UpdateCheck).value)) &&
            (Get(config, RecentSession).Some? ==>
               var at := if Get(config, UpdateCheck).Some? then 1 else 0;
               r[at] == Field(RecentSession, Get(config, RecentSession).value))
  {
  }

  /** Saving adds and drops no field of a dictionary: the same fields,
      each key still with its value, the other fields in their order, and
      the keys still distinct. */
  lemma SaveConfigKeepsFields(config: seq<Field>)
    requires DistinctKeys(config)
    ensures multiset(SaveConfig(config)) == multiset(config)
    ensures PyList.Filter(SaveConfig(config), Ordinary) == PyList.Filter(config, Ordinary)
    ensures DistinctKeys(SaveConfig(config))
    ensures forall k :: Get(SaveConfig(config), k) == Get(config, k)
  {
    var r := SaveConfig(config);
    SaveConfigPermutes(config);
    FilterOfFront(Only(config, UpdateCheck), Only(config, RecentSession), PyList.Filter(config, Ordinary));
    SaveConfigDistinct(config);
    forall k ensures Get(r, k) == Get(config, k) {
      SameFieldsSameGet(config, r, k);
    }
  }

  /** The saved fields are the fields read, each as often. */
  lemma SaveConfigPermutes(config: seq<Field>)
    requires DistinctKeys(config)
    ensures multiset(SaveConfig(config)) == multiset(config)
  {
    var a := Only(config, UpdateCheck);
    var b := Only(config, RecentSession);
    var rest := PyList.Filter(config, Ordinary);
    var r := SaveConfig(config);
    OnlyIsField(config, UpdateCheck);
    OnlyIsField(config, RecentSession);
    PyList.FilterCounts(config, Ordinary);
    assert multiset(r) == multiset(a) + multiset(b) + multiset(rest);
    forall f ensures multiset(r)[f] == multiset(config)[f] {
      if !Ordinary(f) {
        SpecialCount(config, f);
      }
    }
  }

  /** A present field is a field of the dictionary. */
  lemma OnlyIsField(config: seq<Field>, k: string)
    ensures forall f :: f in Only(config, k) ==> f in config && f.key == k
  {
  }

  lemma SpecialCount(config: seq<Field>, f: Field)
    requires DistinctKeys(config) && !Ordinary(f)
    ensures multiset(Only(config, UpdateCheck) + Only(config, RecentSession))[f] == multiset(config)[f]
  {
    var k := f.key;
    var i := IndexOf(config, k);
    if f in config {
      var j :| 0 <= j < |config| && config[j] == f;
      GetAt(config, j);
      CountOne(config, j);
    } else {
      assert multiset(config)[f] == 0;
      if i < |config| {
        assert config[i] != f;
      }
    }
  }

  /** In a dictionary a field occurs once at most. */
  lemma CountOne(config: seq<Field>, j: nat)
    requires DistinctKeys(config) && j < |config|
    ensures multiset(config)[config[j]] == 1
  {
    var f := config[j];
    assert config == config[..j] + [f] + config[j + 1..];
    forall x | x in config[..j] ensures x != f {
      var m :| 0 <= m < j && config[m] == x;
    }
    var tail := config[j + 1..];
    forall x | x in tail ensures x != f {
      var m :| j < m < |config| && config[m] == x;
    }
  }

  lemma FilterOfFront(a: seq<Field>, b: seq<Field>, rest: seq<Field>)
    requires forall f :: f in a ==> f.key == UpdateCheck
    requires forall f :: f in b ==> f.key == RecentSession
    requires forall k :: 0 <= k < |rest| ==> Ordinary(rest[k])
    ensures PyList.Filter(a + b + rest, Ordinary) == rest
  {
    PyList.FilterAppend(a + b, rest, Ordinary);
    PyList.FilterAppend(a, b, Ordinary);
    NoneKept(a);
    NoneKept(b);
    PyList.FilterAllKept(rest, Ordinary);
  }

  lemma {:induction false} NoneKept(a: seq<Field>)
    requires forall f :: f in a ==> !Ordinary(f)
    ensures PyList.Filter(a, Ordinary) == []
  {
    if a != [] {
      assert a[0] in a;
      assert forall f :: f in a[1..] ==> f in a;
      NoneKept(a[1..]);
    }
  }

  /** Filtering a dictionary keeps its keys distinct. */
  lemma {:induction false} FilterDistinct(config: seq<Field>)
    requires DistinctKeys(config)
    ensures DistinctKeys(PyList.Filter(config, Ordinary))
  {
    if config != [] {
      var rest := config[1..];
      FilterDistinct(rest);
      var kept := PyList.Filter(rest, Ordinary);
      if Ordinary(config[0]) {
        FilterWithin(rest);
        var r := [config[0]] + kept;
        forall i, j | 0 <= i < j < |r| ensures r[i].key != r[j].key {
          assert r[j] == kept[j - 1];
          if i == 0 {
            var m :| 0 <= m < |rest| && rest[m] == kept[j - 1];
            assert config[m + 1] == rest[m];
          } else {
            assert r[i] == kept[i - 1];
          }
        }
      }
    }
  }

  /** Every kept field comes from the list. */
  lemma {:induction false} FilterWithin(xs: seq<Field>)
    ensures forall k :: 0 <= k < |PyList.Filter(xs, Ordinary)| ==> PyList.Filter(xs, Ordinary)[k] in xs
  {
    if xs != [] {
      FilterWithin(xs[1..]);
      var kept := PyList.Filter(xs[1..], Ordinary);
      if Ordinary(xs[0]) {
        assert forall k :: 1 <= k < |kept| + 1 ==> ([xs[0]] + kept)[k] == kept[k - 1];
      }
    }
  }

  /** The saved object's keys are distinct: the two front keys differ,
      and neither is among the ordinary fields. */
  lemma SaveConfigDistinct(config: seq<Field>)
    requires DistinctKeys(config)
    ensures DistinctKeys(SaveConfig(config))
  {
    var front := Only(config, UpdateCheck) + Only(config, RecentSession);
    var rest := PyList.Filter(config, Ordinary);
    var r := SaveConfig(config);
    FilterDistinct(config);
    assert forall i :: 0 <= i < |front| ==> !Ordinary(front[i]);
    forall i, j | 0 <= i < j < |r| ensures r[i].key != r[j].key {
      if j >= |front| {
        assert r[j] == rest[j - |front|];
        if i >= |front| {
          assert r[i] == rest[i - |front|];
        } else {
          assert r[i] == front[i];
        }
      } else {
        assert r[i] == front[i] && r[j] == front[j];
      }
    }
  }

  /** Two dictionaries with the same fields answer every lookup alike. */
  lemma SameFieldsSameGet(config: seq<Field>, r: seq<Field>, k: string)
    requires DistinctKeys(config) && DistinctKeys(r) && multiset(r) == multiset(config)
    ensures Get(r, k) == Get(config, k)
  {
    var i := IndexOf(config, k);
    if i < |config| {
      assert config[i] in multiset(r);
      var b :| 0 <= b < |r| && r[b] == config[i];
      GetAt(r, b);
    } else {
      forall j | 0 <= j < |r| ensures r[j].key != k {
        assert r[j] in multiset(config);
        var a :| 0 <= a < |config| && config[a] == r[j];
      }
    }
  }

  /** Saving a saved object changes nothing. */
  lemma SaveConfigIdempotent(config: seq<Field>)
    requires DistinctKeys(config)
    ensures SaveConfig(SaveConfig(config)) == SaveConfig(config)
  {
    SaveConfigKeepsFields(config);
  }

  // ---------------------------------------------------------------------
  // _is_check_needed
  // ---------------------------------------------------------------------

  /** Twenty-four hours, in the microseconds `datetime` counts. */
  const Day: int := 24 * 60 * 60 * 1000000

  /** `_is_check_needed` at time `now`, with `datetime.fromisoformat` as
      `parse` (`None` where it raises ValueError). `None` is an exception
      that escapes: AttributeError when `update_check` is not an object,
      TypeError when `last_checked` is a true value that is not a string.
      Otherwise a check is due when `last_checked` is missing, false or
      unparsable, or more than a day old. */
  function IsCheckNeeded(config: seq<Field>, now: int, parse: string -> Option<int>): (r: Option<bool>)
  {
    match Get(config, UpdateCheck)
    case Some(Obj(fields)) => LastCheckedDue(Get(fields, "last_checked"), now, parse)
    case Some(_) => None
    case None => Some(true)
  }

  function LastCheckedDue(last: Option<Value>, now: int, parse: string -> Option<int>): Option<bool>
  {
    if last.None? || Falsy(last.value) then Some(true)
    else match last.value
      case Str(s) => Some(parse(s).None? || now - parse(s).value > Day)
      case _ => None
  }

  /** When the stored time is a date string: due exactly when it cannot be
      parsed or is more than a day before `now`. */
  lemma IsCheckNeededOfDate(config: seq<Field>, fields: seq<Field>, s: string, now: int, parse: string -> Option<int>)
    requires Get(config, UpdateCheck) == Some(Obj(fields)) && Get(fields, "last_checked") == Some(Str(s))
    ensures IsCheckNeeded(config, now, parse) == Some(s == "" || parse(s).None? || now - parse(s).value > Day)
  {
  }

  /** `_is_check_needed` raises exactly when `update_check` is there but
      not an object, or its `last_checked` is a true value but not a
      string. */
  lemma IsCheckNeededRaises(config: seq<Field>, now: int, parse: string -> Option<int>)
    ensures IsCheckNeeded(config, now, parse).None? <==>
            Get(config, UpdateCheck).Some? &&
            (!Get(config, UpdateCheck).value.Obj? ||
             (Get(Get(config, UpdateCheck).value.fields, "last_checked").Some? &&
              !Falsy(Get(Get(config, UpdateCheck).value.fields, "last_checked").value) &&
              !Get(Get(config, UpdateCheck).value.fields, "last_checked").value.Str?))
  {
  }

  /** A first launch, with no `update_check` or no `last_checked`, always
      checks. */
  lemma FirstLaunchChecks(config: seq<Field>, now: int, parse: string -> Option<int>)
    requires Get(config, UpdateCheck).None? ||
             (Get(config, UpdateCheck).value.Obj? && Get(Get(config, UpdateCheck).value.fields, "last_checked").None?)
    ensures IsCheckNeeded(config, now, parse) == Some(true)
  {
  }

  // ---------------------------------------------------------------------
  // check_for_updates
  // ---------------------------------------------------------------------

  /** The answer from the releases endpoint: `Failed` for everything
      `requests` raises (no connection, a timeout, an error status, a body
      that is not JSON), otherwise the decoded object. */
  datatype Response = Failed | Received(data: seq<Field>)

  /** `UpdateInfo`. */
  datatype UpdateInfo = UpdateInfo(version: string, notes: string, url: Value, pubDate: Value)

  /** What one call leaves behind: whether an exception escaped, the
      answer, whether the network was asked, the configuration in memory,
      and the object written to disk, if any. */
  datatype Check = Check(raised: bool, info: Option<UpdateInfo>, fetched: bool,
                         config: seq<Field>, saved: Option<seq<Field>>)

  /** The version parser and ordering of `packaging.version`, the current
      version, and `str` of a parsed version. */
  datatype Versions<!V> = Versions(parse: string -> Option<V>, newer: (V, V) -> bool,
                                  show: V -> string, current: V)

  /** What the clock reads: the time `_is_check_needed` compares against,
      and the ISO text recorded afterwards. */
  datatype Clock = Clock(now: int, iso: string, parse: string -> Option<int>)

  /** The bookkeeping after a tag was read: `last_checked` and
      `cached_version` set in `update_check`, which is created at the end
      when absent. */
  function Record(config: seq<Field>, iso: string, latest: string): (r: seq<Field>)
  {
    var inner := match Get(config, UpdateCheck)
                 case Some(Obj(fields)) => fields
                 case _ => [];
    var inner2 := SetKey(SetKey(inner, "last_checked", Str(iso)), "cached_version", Str(latest));
    SetKey(config, UpdateCheck, Obj(inner2))
  }

  /** `check_for_updates`, with the network answer, the clock, the version
      functions and the changelog's text as parameters. */
  function CheckForUpdates<V>(config: seq<Field>, clock: Clock, response: Response,
                              versions: Versions<V>, changelog: Option<string>): (r: Check)
  {
    match IsCheckNeeded(config, clock.now, clock.parse)
    case None => Check(true, None, false, config, None)
    case Some(false) => Check(false, None, false, config, None)
    case Some(true) =>
      match response
      case Failed => Check(false, None, true, config, None)
      case Received(data) =>
        match Get(data, "tag_name").GetOr(Str(""))
        case Str(tag) => Fetched(config, clock, data, tag, versions, changelog)
        case _ => Check(true, None, true, config, None)
  }

  /** The rest of `check_for_updates` once the tag is a string. */
  function Fetched<V>(config: seq<Field>, clock: Clock, data: seq<Field>, tag: string,
                      versions: Versions<V>, changelog: Option<string>): (r: Check)
  {
    var latest := PyText.LStripChar(tag, 'v');
    if latest == "" then Check(false, None, true, config, None)
    else match versions.parse(latest)
      case None => Check(true, None, true, config, None)
      case Some(v) =>
        var recorded := Record(config, clock.iso, latest);
        var saved := Some(SaveConfig(recorded));
        if versions.newer(v, versions.current) then
          var info := UpdateInfo(versions.show(v), Changelog.Notes(tag, changelog),
                                 Get(data, "html_url").GetOr(Str("")),
                                 Get(data, "published_at").GetOr(Str("")));
          Check(false, Some(info), true, recorded, saved)
        else Check(false, None, true, recorded, saved)
  }

  /** The tag of an answer, as `data.get("tag_name", "")`. */
  function Tag(data: seq<Field>): Value
  {
    Get(data, "tag_name").GetOr(Str(""))
  }

  /** A check that is not due returns nothing and touches neither the
      network nor the configuration. */
  lemma NotDueNoFetch<V>(config: seq<Field>, clock: Clock, response: Response,
                         versions: Versions<V>, changelog: Option<string>)
    requires IsCheckNeeded(config, clock.now, clock.parse) == Some(false)
    ensures CheckForUpdates(config, clock, response, versions, changelog) == Check(false, None, false, config, None)
  {
  }

  /** A failed request, an empty tag or a tag of only 'v's returns nothing
      and records nothing. */
  lemma NothingRecorded<V>(config: seq<Field>, clock: Clock, response: Response,
                           versions: Versions<V>, changelog: Option<string>)
    requires IsCheckNeeded(config, clock.now, clock.parse) == Some(true)
    requires response.Failed? || (Tag(response.data).Str? && PyText.LStripChar(Tag(response.data).s, 'v') == "")
    ensures var r := CheckForUpdates(config, clock, response, versions, changelog);
            !r.raised && r.info.None? && r.fetched && r.config == config && r.saved.None?
  {
  }

  /** An exception escapes exactly when `_is_check_needed` raises, when a
      due check gets a tag that is not a string, or when the tag left after
      stripping its 'v's is not a version `packaging` can parse; nothing
      is then recorded or returned. */
  lemma CheckRaises<V>(config: seq<Field>, clock: Clock, response: Response,
                       versions: Versions<V>, changelog: Option<string>)
    ensures var r := CheckForUpdates(config, clock, response, versions, changelog);
            r.raised <==>
              IsCheckNeeded(config, clock.now, clock.parse).None? ||
              (IsCheckNeeded(config, clock.now, clock.parse) == Some(true) && response.Received? &&
               (!Tag(response.data).Str? ||
                (PyText.LStripChar(Tag(response.data).s, 'v') != "" &&
                 versions.parse(PyText.LStripChar(Tag(response.data).s, 'v')).None?)))
    ensures var r := CheckForUpdates(config, clock, response, versions, changelog);
            r.raised ==> r.info.None? && r.config == config && r.saved.None?
  {
  }

  /** Once a non-empty tag parses, the time and the tag are recorded and
      the configuration saved, newer or not; an update is reported exactly
      when the tag is newer, with its notes from the changelog. */
  lemma RecordsAndReports<V>(config: seq<Field>, clock: Clock, data: seq<Field>,
                             versions: Versions<V>, changelog: Option<string>)
    requires IsDict(config)
    requires IsCheckNeeded(config, clock.now, clock.parse) == Some(true)
    requires Tag(data).Str? && PyText.LStripChar(Tag(data).s, 'v') != ""
    requires versions.parse(PyText.LStripChar(Tag(data).s, 'v')).Some?
    ensures var latest := PyText.LStripChar(Tag(data).s, 'v');
            var v := versions.parse(latest).value;
            var r := CheckForUpdates(config, clock, Received(data), versions, changelog);
            !r.raised && r.fetched && r.saved == Some(SaveConfig(r.config)) &&
            Recorded(r.config, clock.iso, latest) &&
            (forall k :: k != UpdateCheck ==> Get(r.config, k) == Get(config, k)) &&
            IsDict(r.config) &&
            (r.info.Some? <==> versions.newer(v, versions.current)) &&
            (r.info.Some? ==> r.info.value.version == versions.show(v) &&
                              r.info.value.notes == Changelog.Notes(Tag(data).s, changelog))
  {
    RecordFacts(config, clock.iso, PyText.LStripChar(Tag(data).s, 'v'));
  }

  /** `update_check` holds the recorded time and tag. */
  predicate Recorded(config: seq<Field>, iso: string, latest: string)
  {
    Get(config, UpdateCheck).Some? && Get(config, UpdateCheck).value.Obj? &&
    Get(Get(config, UpdateCheck).value.fields, "last_checked") == Some(Str(iso)) &&
    Get(Get(config, UpdateCheck).value.fields, "cached_version") == Some(Str(latest))
  }

  lemma RecordFacts(config: seq<Field>, iso: string, latest: string)
    requires IsDict(config)
    ensures var r := Record(config, iso, latest);
            Recorded(r, iso, latest) && IsDict(r) &&
            (forall k :: k != UpdateCheck ==> Get(r, k) == Get(config, k))
  {
    var inner := match Get(config, UpdateCheck)
                 case Some(Obj(fields)) => fields
                 case _ => [];
    var inner1 := SetKey(inner, "last_checked", Str(iso));
    SetKeyFacts(inner, "last_checked", Str(iso));
    SetKeyFacts(inner1, "cached_version", Str(latest));
    SetKeyFacts(config, UpdateCheck, Obj(SetKey(inner1, "cached_version", Str(latest))));
  }

  /** Right after a recorded check, with the recorded text parsing back to
      the time it was taken, the next check is due exactly when more than a
      day has passed since. */
  lemma RecordedThenDue(config: seq<Field>, iso: string, latest: string, taken: int, later: int,
                        parse: string -> Option<int>)
    requires Recorded(config, iso, latest) && parse(iso) == Some(taken)
    ensures IsCheckNeeded(config, later, parse) == Some(iso == "" || later - taken > Day)
  {
  }
}
