/**
 * The configuration of the Graphite input and its static validator.
 *
 * A template line is up to three whitespace-separated fields
 * `[filter] pattern [tags]`. Validation accepts a configuration when every
 * template has exactly one `measurement`/`measurement*` pattern segment, a
 * filter whose dot-separated segments are non-empty and either exactly `*` or
 * free of `*`, well-formed `key=value` static tags, and when every default tag
 * is well formed. Templates are checked in order and the first failure wins;
 * default tags are looked at only once every template passed.
 */
module GraphiteConfig {
  import opened Strings

  const DefaultBindAddress: string := ":2003"
  const DefaultDatabase: string := "graphite"
  const DefaultProtocol: string := "tcp"
  const DefaultConsistencyLevel: string := "one"

  /** The Graphite input's settings. `batchTimeout` is the duration in nanoseconds. */
  datatype Config = Config(
    bindAddress: string,
    database: string,
    enabled: bool,
    protocol: string,
    batchSize: int,
    batchTimeout: int,
    consistencyLevel: string,
    templates: seq<string>,
    tags: seq<string>)

  datatype Option<T> = None | Some(value: T)

  /** What a failed validation reports: the kind, and the index or offending text. */
  datatype ValidationError =
    | MissingTemplate(position: nat)
    | InvalidTemplateFormat(template: string)
    | NoMeasurement(pattern: string)
    | MultipleMeasurements(pattern: string)
    | BlankFilterSection(filter: string)
    | InvalidFilterWildcard(filter: string)
    | InvalidTag(keyValue: string)

  // ---------------------------------------------------------------------------
  // Defaults

  /** The four settings that have a default are all set. */
  predicate HasDefaults(c: Config) {
    c.bindAddress != "" && c.database != "" && c.protocol != "" && c.consistencyLevel != ""
  }

  /** `c` and `d` agree on every setting that has no default. */
  predicate SameUndefaulted(c: Config, d: Config) {
    c.enabled == d.enabled && c.batchSize == d.batchSize && c.batchTimeout == d.batchTimeout
    && c.templates == d.templates && c.tags == d.tags
  }

  /** A configuration holding the defaults; every other setting is Go's zero value. */
  function NewConfig(): (c: Config)
    ensures c.bindAddress == DefaultBindAddress && c.database == DefaultDatabase
    ensures c.protocol == DefaultProtocol && c.consistencyLevel == DefaultConsistencyLevel
    ensures !c.enabled && c.batchSize == 0 && c.batchTimeout == 0
    ensures c.templates == [] && c.tags == []
  {
    Config(DefaultBindAddress, DefaultDatabase, false, DefaultProtocol, 0, 0,
           DefaultConsistencyLevel, [], [])
  }

  /**
   * The configuration `WithDefaults` produces: each empty defaulted setting
   * takes its default, every non-empty one is kept, nothing else changes.
   */
  function Defaulted(c: Config): (d: Config)
    ensures HasDefaults(d)
    ensures SameUndefaulted(c, d)
    ensures c.bindAddress != "" ==> d.bindAddress == c.bindAddress
    ensures c.database != "" ==> d.database == c.database
    ensures c.protocol != "" ==> d.protocol == c.protocol
    ensures c.consistencyLevel != "" ==> d.consistencyLevel == c.consistencyLevel
    ensures c.bindAddress == "" ==> d.bindAddress == DefaultBindAddress
    ensures c.database == "" ==> d.database == DefaultDatabase
    ensures c.protocol == "" ==> d.protocol == DefaultProtocol
    ensures c.consistencyLevel == "" ==> d.consistencyLevel == DefaultConsistencyLevel
  {
    c.(bindAddress := if c.bindAddress == "" then DefaultBindAddress else c.bindAddress,
       database := if c.database == "" then DefaultDatabase else c.database,
       protocol := if c.protocol == "" then DefaultProtocol else c.protocol,
       consistencyLevel := if c.consistencyLevel == "" then DefaultConsistencyLevel else c.consistencyLevel)
  }

  /** Copies `c`, then overwrites each empty defaulted setting of the copy. */
  method WithDefaults(c: Config) returns (d: Config)
    ensures d == Defaulted(c)
  {
    d := c;
    if d.bindAddress == "" {
      d := d.(bindAddress := DefaultBindAddress);
    }
    if d.database == "" {
      d := d.(database := DefaultDatabase);
    }
    if d.protocol == "" {
      d := d.(protocol := DefaultProtocol);
    }
    if d.consistencyLevel == "" {
      d := d.(consistencyLevel := DefaultConsistencyLevel);
    }
  }

  /** A configuration that already has its defaults is left as it is. */
  lemma DefaultedKeepsComplete(c: Config)
    requires HasDefaults(c)
    ensures Defaulted(c) == c
  {
  }

  /** Applying the defaults twice is applying them once, and `NewConfig()` is a fixed point. */
  lemma DefaultedIdempotent(c: Config)
    ensures Defaulted(Defaulted(c)) == Defaulted(c)
    ensures Defaulted(NewConfig()) == NewConfig()
  {
    DefaultedKeepsComplete(Defaulted(c));
    DefaultedKeepsComplete(NewConfig());
  }

  // ---------------------------------------------------------------------------
  // Default tags

  /** The key of a tag string with at least one `=`: the text before the first `=`. */
  function TagKey(t: string): (k: string)
    requires '=' in t
    ensures '=' !in k
    ensures k + "=" <= t
  {
    SplitHead(t, '=');
    Split(t, '=')[0]
  }

  /**
   * The value of a tag string with at least one `=`: the text after the
   * first `=`, up to the second `=` or the end.
   */
  function TagValue(t: string): (v: string)
    requires '=' in t
    ensures '=' !in v
    ensures TagKey(t) + "=" + v <= t
    ensures var end := |TagKey(t)| + 1 + |v|; end == |t| || t[end] == '='
  {
    SplitSecond(t, '=');
    Split(t, '=')[1]
  }

  /** No tag strictly between positions `i` and `n` has the same key as `tags[i]`. */
  predicate NoLaterKey(tags: seq<string>, i: nat, n: nat)
    requires i < n <= |tags|
    requires forall j :: 0 <= j < |tags| ==> '=' in tags[j]
  {
    forall j :: i < j < n ==> TagKey(tags[j]) != TagKey(tags[i])
  }

  /**
   * The map of the default tags: every tag's key is present, every key comes
   * from some tag, and each key holds the value of its last occurrence.
   * The only demand on the tags is that each have an `=`.
   */
  method DefaultTags(c: Config) returns (tags: map<string, string>)
    requires forall i :: 0 <= i < |c.tags| ==> '=' in c.tags[i]
    ensures forall i :: 0 <= i < |c.tags| ==> TagKey(c.tags[i]) in tags
    ensures forall k :: k in tags ==> exists i :: 0 <= i < |c.tags| && TagKey(c.tags[i]) == k
    ensures forall i :: 0 <= i < |c.tags| && NoLaterKey(c.tags, i, |c.tags|) ==>
              tags[TagKey(c.tags[i])] == TagValue(c.tags[i])
  {
    tags := map[];
    var n := 0;
    while n < |c.tags|
      invariant 0 <= n <= |c.tags|
      invariant forall i :: 0 <= i < n ==> TagKey(c.tags[i]) in tags
      invariant forall k :: k in tags ==> exists i :: 0 <= i < n && TagKey(c.tags[i]) == k
      invariant forall i :: 0 <= i < n && NoLaterKey(c.tags, i, n) ==>
                  tags[TagKey(c.tags[i])] == TagValue(c.tags[i])
    {
      var parts := Split(c.tags[n], '=');
      tags := tags[parts[0] := parts[1]];
      forall i | 0 <= i < n && NoLaterKey(c.tags, i, n + 1)
        ensures NoLaterKey(c.tags, i, n)
        ensures TagKey(c.tags[n]) != TagKey(c.tags[i])
      {
      }
      n := n + 1;
    }
  }

  /**
   * A tag string `k=v`, possibly followed by a further `=` and anything, has
   * key `k` and value `v` when `k` and `v` are `=`-free: `a=b=c` stores `b`
   * under `a`.
   */
  lemma {:induction false} TagKeyValue(k: string, v: string, rest: string)
    requires '=' !in k && '=' !in v
    requires rest == [] || rest[0] == '='
    ensures '=' in k + "=" + v + rest
    ensures TagKey(k + "=" + v + rest) == k && TagValue(k + "=" + v + rest) == v
  {
    assert k + "=" + v + rest == k + ['='] + v + rest;
    SplitFirstTwo(k, '=', v, rest);
  }

  // ---------------------------------------------------------------------------
  // Validation: the first error of a sequence of checks

  /** The first error among `errs`, or `None` when every check passed. */
  function FirstError(errs: seq<Option<ValidationError>>): (r: Option<ValidationError>)
    ensures r.None? <==> forall j :: 0 <= j < |errs| ==> errs[j].None?
    ensures r.Some? ==> exists k :: 0 <= k < |errs| && r == errs[k]
                                    && forall j :: 0 <= j < k ==> errs[j].None?
  {
    if errs == [] then None
    else if errs[0].Some? then errs[0]
    else
      var r := FirstError(errs[1..]);
      assert forall j :: 1 <= j < |errs| ==> errs[j] == errs[1..][j - 1];
      r
  }

  /** When the checks before position `k` passed and check `k` failed, its error is the first. */
  lemma {:induction false} FirstErrorAt(errs: seq<Option<ValidationError>>, k: nat)
    requires k < |errs| && errs[k].Some?
    requires forall j :: 0 <= j < k ==> errs[j].None?
    ensures FirstError(errs) == errs[k]
    decreases k
  {
    if k > 0 {
      FirstErrorAt(errs[1..], k - 1);
    }
  }

  // ---------------------------------------------------------------------------
  // Tags

  /** validateTag: exactly one `=`, with non-empty text on both sides. */
  function ValidateTag(keyValue: string): (r: Option<ValidationError>)
    ensures r.Some? ==> r == Some(InvalidTag(keyValue))
  {
    var parts := Split(keyValue, '=');
    if |parts| != 2 then Some(InvalidTag(keyValue))
    else if parts[0] == "" || parts[1] == "" then Some(InvalidTag(keyValue))
    else None
  }

  /** A tag passes exactly when it is `k=v` with `k` and `v` non-empty and free of `=`. */
  lemma TagValidIff(keyValue: string)
    ensures ValidateTag(keyValue).None? <==>
            exists k, v :: k != "" && v != "" && '=' !in k && '=' !in v && keyValue == k + "=" + v
  {
    var parts := Split(keyValue, '=');
    SplitJoin(keyValue, '=');
    if ValidateTag(keyValue).None? {
      var k, v := parts[0], parts[1];
      assert parts == [k, v];
      assert keyValue == Join(parts, '=') == k + "=" + v;
    }
    if exists k, v :: k != "" && v != "" && '=' !in k && '=' !in v && keyValue == k + "=" + v {
      var k, v :| k != "" && v != "" && '=' !in k && '=' !in v && keyValue == k + "=" + v;
      SplitUnique([k, v], '=');
      assert Join([k, v], '=') == k + "=" + v;
    }
  }

  /** A passing tag splits back into its key and its value, both non-empty. */
  lemma TagRoundTrip(keyValue: string)
    requires ValidateTag(keyValue).None?
    ensures '=' in keyValue
    ensures TagKey(keyValue) != "" && TagValue(keyValue) != ""
    ensures TagKey(keyValue) + "=" + TagValue(keyValue) == keyValue
  {
    var parts := Split(keyValue, '=');
    SplitJoin(keyValue, '=');
    assert keyValue == Join(parts, '=') == parts[0] + "=" + parts[1];
  }

  /** The first invalid tag of a list, in order. */
  function TagsError(tags: seq<string>): (r: Option<ValidationError>)
    ensures r.None? <==> forall j :: 0 <= j < |tags| ==> ValidateTag(tags[j]).None?
  {
    FirstError(TagErrors(tags))
  }

  /** The check of each tag, position by position. */
  function TagErrors(tags: seq<string>): (r: seq<Option<ValidationError>>)
    ensures |r| == |tags| && forall j :: 0 <= j < |tags| ==> r[j] == ValidateTag(tags[j])
  {
    seq(|tags|, j requires 0 <= j < |tags| => ValidateTag(tags[j]))
  }

  /** validateTags: checks every default tag in order, stopping at the first invalid one. */
  method ValidateTags(tags: seq<string>) returns (err: Option<ValidationError>)
    ensures err == TagsError(tags)
  {
    var i := 0;
    while i < |tags|
      invariant 0 <= i <= |tags|
      invariant forall j :: 0 <= j < i ==> ValidateTag(tags[j]).None?
    {
      err := ValidateTag(tags[i]);
      if err.Some? {
        FirstErrorAt(TagErrors(tags), i);
        return;
      }
      i := i + 1;
    }
    err := None;
  }

  /** Every comma-separated token of `tags` is a valid tag. */
  predicate ValidTagList(tags: string) {
    var tokens := Split(tags, ',');
    forall j :: 0 <= j < |tokens| ==> ValidateTag(tokens[j]).None?
  }

  /** The static tags of a template: none when empty, else each comma-separated token. */
  function StaticTagsError(tags: string): (r: Option<ValidationError>)
    ensures r.None? <==> tags == "" || ValidTagList(tags)
  {
    if tags == "" then None else TagsError(Split(tags, ','))
  }

  /** A tag list ending in a comma has an empty last token, so it is rejected. */
  lemma {:induction false} TrailingCommaRejected(tags: string)
    ensures StaticTagsError(tags + ",").Some?
  {
    assert tags + "," == tags + [','] + [];
    SplitAround(tags, ',', []);
    var pieces := Split(tags + ",", ',');
    assert pieces[|pieces| - 1] == [];
    assert ValidateTag(pieces[|pieces| - 1]).Some?;
  }

  // ---------------------------------------------------------------------------
  // Patterns

  /** A pattern segment naming the measurement. */
  predicate IsMeasurement(segment: string) {
    segment == "measurement" || segment == "measurement*"
  }

  /** Number of measurement segments among the first `n` of `segments`. */
  function MeasurementsBefore(segments: seq<string>, n: nat): (count: nat)
    requires n <= |segments|
    ensures count <= n
  {
    if n == 0 then 0
    else MeasurementsBefore(segments, n - 1) + (if IsMeasurement(segments[n - 1]) then 1 else 0)
  }

  /** Looking at more segments never finds fewer measurements. */
  lemma {:induction false} MeasurementsMonotone(segments: seq<string>, i: nat, n: nat)
    requires i <= n <= |segments|
    ensures MeasurementsBefore(segments, i) <= MeasurementsBefore(segments, n)
    decreases n
  {
    if i < n {
      MeasurementsMonotone(segments, i, n - 1);
    }
  }

  /** No measurement is counted exactly when none of the first `n` segments is one. */
  lemma {:induction false} MeasurementsZero(segments: seq<string>, n: nat)
    requires n <= |segments|
    ensures MeasurementsBefore(segments, n) == 0 <==>
            forall j :: 0 <= j < n ==> !IsMeasurement(segments[j])
    decreases n
  {
    if n > 0 {
      MeasurementsZero(segments, n - 1);
    }
  }

  /** Among the first `n` segments, segment `k` and no other is a measurement. */
  predicate OnlyMeasurementAt(segments: seq<string>, k: int, n: nat)
    requires n <= |segments|
  {
    0 <= k < n && IsMeasurement(segments[k])
    && forall j :: 0 <= j < n && IsMeasurement(segments[j]) ==> j == k
  }

  /** One measurement is counted exactly when one segment, and no other, is a measurement. */
  lemma {:induction false} MeasurementsOne(segments: seq<string>, n: nat)
    requires n <= |segments|
    ensures MeasurementsBefore(segments, n) == 1 <==> exists k :: OnlyMeasurementAt(segments, k, n)
    decreases n
  {
    if n > 0 {
      var last := n - 1;
      MeasurementsOne(segments, last);
      MeasurementsZero(segments, last);
      if MeasurementsBefore(segments, n) == 1 {
        if IsMeasurement(segments[last]) {
          assert OnlyMeasurementAt(segments, last, n);
        } else {
          var k :| OnlyMeasurementAt(segments, k, last);
          assert OnlyMeasurementAt(segments, k, n);
        }
      }
      if exists k :: OnlyMeasurementAt(segments, k, n) {
        var k :| OnlyMeasurementAt(segments, k, n);
        if k == last {
          assert forall j :: 0 <= j < last ==> !IsMeasurement(segments[j]);
        } else {
          assert !IsMeasurement(segments[last]);
          assert OnlyMeasurementAt(segments, k, last);
        }
      }
    }
  }

  /** What validateTemplate reports for a pattern, from its number of measurement segments. */
  function PatternError(pattern: string): (r: Option<ValidationError>)
    ensures r.Some? ==> r == Some(NoMeasurement(pattern)) || r == Some(MultipleMeasurements(pattern))
  {
    var segments := Split(pattern, '.');
    var n := MeasurementsBefore(segments, |segments|);
    if n == 0 then Some(NoMeasurement(pattern))
    else if n > 1 then Some(MultipleMeasurements(pattern))
    else None
  }

  /**
   * A pattern passes exactly when one of its dot-separated segments, and no
   * other, is `measurement` or `measurement*`; with none the error is "no
   * measurement".
   */
  lemma {:induction false} PatternValidIff(pattern: string)
    ensures var segments := Split(pattern, '.');
            && (PatternError(pattern).None? <==> exists k :: OnlyMeasurementAt(segments, k, |segments|))
            && (PatternError(pattern) == Some(NoMeasurement(pattern)) <==>
                forall j :: 0 <= j < |segments| ==> !IsMeasurement(segments[j]))
  {
    var segments := Split(pattern, '.');
    MeasurementsOne(segments, |segments|);
    MeasurementsZero(segments, |segments|);
    var n := MeasurementsBefore(segments, |segments|);
    assert PatternError(pattern).None? <==> n == 1;
    assert PatternError(pattern) == Some(NoMeasurement(pattern)) <==> n == 0;
    assert segments == Split(pattern, '.');
  }

  /**
   * validateTemplate: walks the segments with a "measurement seen" flag and
   * stops at the second measurement.
   */
  method ValidateTemplate(template: string) returns (err: Option<ValidationError>)
    ensures err == PatternError(template)
  {
    var segments := Split(template, '.');
    var hasMeasurement := false;
    var i := 0;
    while i < |segments|
      invariant 0 <= i <= |segments|
      invariant MeasurementsBefore(segments, i) <= 1
      invariant hasMeasurement <==> MeasurementsBefore(segments, i) == 1
    {
      if IsMeasurement(segments[i]) {
        if hasMeasurement {
          MeasurementsMonotone(segments, i + 1, |segments|);
          err := Some(MultipleMeasurements(template));
          return;
        }
        hasMeasurement := true;
      }
      i := i + 1;
    }
    if !hasMeasurement {
      err := Some(NoMeasurement(template));
      return;
    }
    err := None;
  }

  // ---------------------------------------------------------------------------
  // Filters

  /** A filter segment is valid when it is non-empty and, if it holds `*`, is exactly `*`. */
  predicate ValidSegment(segment: string) {
    segment != "" && ('*' in segment ==> segment == "*")
  }

  /** Every dot-separated segment of the filter is valid. */
  predicate ValidFilter(filter: string) {
    var segments := Split(filter, '.');
    forall j :: 0 <= j < |segments| ==> ValidSegment(segments[j])
  }

  /** The error one filter segment causes, naming the whole filter. */
  function SegmentError(filter: string, segment: string): (r: Option<ValidationError>)
    ensures r.None? <==> ValidSegment(segment)
  {
    if segment == "" then Some(BlankFilterSection(filter))
    else if '*' in segment && segment != "*" then Some(InvalidFilterWildcard(filter))
    else None
  }

  /** The error of the first invalid segment of the filter, in order. */
  function FilterError(filter: string): (r: Option<ValidationError>)
    ensures r.None? <==> ValidFilter(filter)
    ensures r.Some? ==> r == Some(BlankFilterSection(filter)) || r == Some(InvalidFilterWildcard(filter))
  {
    var segments := Split(filter, '.');
    var errs := SegmentErrors(filter, segments);
    assert forall j :: 0 <= j < |segments| ==> (errs[j].None? <==> ValidSegment(segments[j]));
    FirstError(errs)
  }

  /** The check of each segment of `filter`, position by position. */
  function SegmentErrors(filter: string, segments: seq<string>): (r: seq<Option<ValidationError>>)
    ensures |r| == |segments| && forall j :: 0 <= j < |segments| ==> r[j] == SegmentError(filter, segments[j])
  {
    seq(|segments|, j requires 0 <= j < |segments| => SegmentError(filter, segments[j]))
  }

  /** validateFilter: checks the dot-separated segments in order, stopping at the first invalid one. */
  method ValidateFilter(filter: string) returns (err: Option<ValidationError>)
    ensures err == FilterError(filter)
  {
    var segments := Split(filter, '.');
    ghost var errs := SegmentErrors(filter, segments);
    var i := 0;
    while i < |segments|
      invariant 0 <= i <= |segments|
      invariant forall j :: 0 <= j < i ==> ValidSegment(segments[j])
    {
      var p := segments[i];
      if p == "" {
        err := Some(BlankFilterSection(filter));
        FirstErrorAt(errs, i);
        return;
      }
      if '*' in p && p != "*" {
        err := Some(InvalidFilterWildcard(filter));
        FirstErrorAt(errs, i);
        return;
      }
      i := i + 1;
    }
    err := None;
  }

  /** The empty filter is one blank segment, so it is rejected. */
  lemma EmptyFilterRejected()
    ensures FilterError("") == Some(BlankFilterSection(""))
  {
    assert Split("", '.') == [""];
    FirstErrorAt([SegmentError("", "")], 0);
  }

  /** A filter starting with a dot has a blank first segment, which is what is reported. */
  lemma {:induction false} LeadingDotRejected(rest: string)
    ensures FilterError("." + rest) == Some(BlankFilterSection("." + rest))
  {
    var filter := "." + rest;
    assert filter == [] + ['.'] + rest;
    SplitAround([], '.', rest);
    var segments := Split(filter, '.');
    assert segments[0] == [];
    FirstErrorAt(SegmentErrors(filter, segments), 0);
  }

  /** A filter ending with a dot has a blank last segment, so it is rejected. */
  lemma {:induction false} TrailingDotRejected(front: string)
    ensures FilterError(front + ".").Some?
  {
    assert front + "." == front + ['.'] + [];
    SplitAround(front, '.', []);
    var segments := Split(front + ".", '.');
    assert !ValidSegment(segments[|segments| - 1]);
  }

  /** A filter with two dots in a row has a blank segment between them, so it is rejected. */
  lemma {:induction false} DoubledDotRejected(front: string, rest: string)
    ensures FilterError(front + ".." + rest).Some?
  {
    var filter := front + ".." + rest;
    assert filter == front + ['.'] + ([] + ['.'] + rest);
    SplitAround(front, '.', [] + ['.'] + rest);
    SplitAround([], '.', rest);
    var segments := Split(filter, '.');
    assert segments[|Split(front, '.')|] == [];
    assert !ValidSegment(segments[|Split(front, '.')|]);
  }

  // ---------------------------------------------------------------------------
  // Template lines

  /**
   * What validateTemplates reports for the template `t` at position `i`. With
   * one field the pattern is the whole raw line and the filter is empty; with
   * two or three fields they are the first two fields; the third field, if
   * any, holds the static tags. Pattern, filter and tags are checked in that
   * order.
   */
  function TemplateLineError(i: nat, t: string): (r: Option<ValidationError>)
    ensures r == Some(MissingTemplate(i)) <==> Blank(t)
    ensures |Fields(t)| > 3 ==> r == Some(InvalidTemplateFormat(t))
  {
    var parts := Fields(t);
    if |parts| == 0 then Some(MissingTemplate(i))
    else if |parts| > 3 then Some(InvalidTemplateFormat(t))
    else
      var pattern := if |parts| >= 2 then parts[1] else t;
      var filter := if |parts| >= 2 then parts[0] else "";
      var tags := if |parts| == 3 then parts[2] else "";
      PartsError(pattern, filter, tags)
  }

  /** The checks of one template's parts, in order: pattern, then filter, then static tags. */
  function PartsError(pattern: string, filter: string, tags: string): (r: Option<ValidationError>)
    ensures r.None? <==> PatternError(pattern).None? && FilterError(filter).None? && StaticTagsError(tags).None?
  {
    if PatternError(pattern).Some? then PatternError(pattern)
    else if FilterError(filter).Some? then FilterError(filter)
    else StaticTagsError(tags)
  }

  /**
   * A one-field template never passes: its pattern is the whole line, and if
   * that passes the empty filter is rejected as a blank section.
   */
  lemma OneFieldTemplateRejected(i: nat, t: string)
    requires |Fields(t)| == 1
    ensures TemplateLineError(i, t) ==
            if PatternError(t).Some? then PatternError(t) else Some(BlankFilterSection(""))
    ensures TemplateLineError(i, t).Some?
  {
    EmptyFilterRejected();
  }

  /**
   * A template passes exactly when it has two or three fields, its pattern
   * and filter pass, and, with three fields, every comma-separated static tag
   * passes; static tags are not looked at otherwise.
   */
  lemma TemplateValidIff(i: nat, t: string)
    ensures TemplateLineError(i, t).None? <==>
            var parts := Fields(t);
            && 2 <= |parts| <= 3
            && PatternError(parts[1]).None?
            && ValidFilter(parts[0])
            && (|parts| == 3 ==> ValidTagList(parts[2]))
  {
    if |Fields(t)| == 1 {
      OneFieldTemplateRejected(i, t);
    }
  }

  // ---------------------------------------------------------------------------
  // Whole configuration

  /** The error of the first failing template, in configuration order. */
  function TemplatesError(templates: seq<string>): (r: Option<ValidationError>)
    ensures r.None? <==> forall i :: 0 <= i < |templates| ==> TemplateLineError(i, templates[i]).None?
  {
    FirstError(LineErrors(templates))
  }

  /** The check of each template line, position by position. */
  function LineErrors(templates: seq<string>): (r: seq<Option<ValidationError>>)
    ensures |r| == |templates| && forall j :: 0 <= j < |templates| ==> r[j] == TemplateLineError(j, templates[j])
  {
    seq(|templates|, j requires 0 <= j < |templates| => TemplateLineError(j, templates[j]))
  }

  /**
   * One pass of validateTemplates' loop: splits the line into fields, picks
   * pattern, filter and tags by the number of fields, and checks them in
   * that order, stopping at the first error.
   */
  method ValidateTemplateLine(i: nat, t: string) returns (err: Option<ValidationError>)
    ensures err == TemplateLineError(i, t)
  {
    var parts := Fields(t);
    if |parts| == 0 {
      return Some(MissingTemplate(i));
    }
    if |parts| == 1 && parts[0] == "" {
      // Fields never yields an empty field.
      assert false;
    }
    if |parts| > 3 {
      return Some(InvalidTemplateFormat(t));
    }

    var template, filter, tags := t, "", "";
    if |parts| >= 2 {
      filter := parts[0];
      template := parts[1];
    }
    if |parts| == 3 {
      tags := parts[2];
    }

    err := ValidateTemplate(template);
    if err.Some? {
      return;
    }
    err := ValidateFilter(filter);
    if err.Some? {
      return;
    }
    if tags != "" {
      var tagStrs := Split(tags, ',');
      var k := 0;
      while k < |tagStrs|
        invariant 0 <= k <= |tagStrs|
        invariant forall j :: 0 <= j < k ==> ValidateTag(tagStrs[j]).None?
      {
        err := ValidateTag(tagStrs[k]);
        if err.Some? {
          FirstErrorAt(TagErrors(tagStrs), k);
          return;
        }
        k := k + 1;
      }
    }
    err := None;
  }

  /** validateTemplates: checks the template lines in order, stopping at the first error. */
  method ValidateTemplates(templates: seq<string>) returns (err: Option<ValidationError>)
    ensures err == TemplatesError(templates)
  {
    ghost var errs := LineErrors(templates);
    var i := 0;
    while i < |templates|
      invariant 0 <= i <= |templates|
      invariant forall j :: 0 <= j < i ==> errs[j].None?
    {
      err := ValidateTemplateLine(i, templates[i]);
      assert err == errs[i];
      if err.Some? {
        assert FirstError(errs) == errs[i] by { FirstErrorAt(errs, i); }
        return;
      }
      assert forall j :: 0 <= j <= i ==> errs[j].None?;
      i := i + 1;
    }
    err := None;
  }

  /** What Validate reports: the first template error, else the first default tag error. */
  function ValidationOutcome(c: Config): (r: Option<ValidationError>)
    ensures r.None? <==>
            (forall i :: 0 <= i < |c.templates| ==> TemplateLineError(i, c.templates[i]).None?)
            && (forall j :: 0 <= j < |c.tags| ==> ValidateTag(c.tags[j]).None?)
  {
    if TemplatesError(c.templates).Some? then TemplatesError(c.templates) else TagsError(c.tags)
  }

  /** Validate: the templates first, then the default tags. */
  method Validate(c: Config) returns (err: Option<ValidationError>)
    ensures err == ValidationOutcome(c)
  {
    err := ValidateTemplates(c.templates);
    if err.Some? {
      return;
    }
    err := ValidateTags(c.tags);
  }

  /**
   * The first failing template decides the outcome, whatever the default tags
   * are; only when every template passes does the first invalid default tag
   * decide it.
   */
  lemma {:induction false} FirstFailureReported(c: Config)
    ensures forall i :: 0 <= i < |c.templates| && TemplateLineError(i, c.templates[i]).Some?
                        && (forall j :: 0 <= j < i ==> TemplateLineError(j, c.templates[j]).None?)
                        ==> ValidationOutcome(c) == TemplateLineError(i, c.templates[i])
    ensures forall k :: 0 <= k < |c.tags| && ValidateTag(c.tags[k]).Some?
                        && (forall j :: 0 <= j < k ==> ValidateTag(c.tags[j]).None?)
                        && TemplatesError(c.templates).None?
                        ==> ValidationOutcome(c) == Some(InvalidTag(c.tags[k]))
  {
    var ts, tags := c.templates, c.tags;
    var templateErrs := LineErrors(ts);
    var tagErrs := TagErrors(tags);
    forall i | 0 <= i < |ts| && TemplateLineError(i, ts[i]).Some?
               && (forall j :: 0 <= j < i ==> TemplateLineError(j, ts[j]).None?)
      ensures ValidationOutcome(c) == TemplateLineError(i, ts[i])
    {
      FirstErrorAt(templateErrs, i);
    }
    forall k | 0 <= k < |tags| && ValidateTag(tags[k]).Some?
               && (forall j :: 0 <= j < k ==> ValidateTag(tags[j]).None?)
               && TemplatesError(ts).None?
      ensures ValidationOutcome(c) == Some(InvalidTag(tags[k]))
    {
      FirstErrorAt(tagErrs, k);
    }
  }

  /** The configuration `NewConfig` returns validates, and keeps doing so once defaulted. */
  lemma NewConfigValid()
    ensures ValidationOutcome(NewConfig()) == None
    ensures ValidationOutcome(Defaulted(NewConfig())) == None
  {
  }
}
