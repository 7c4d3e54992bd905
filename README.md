# Graphite input configuration, modelled in Dafny

This project models the configuration of the Graphite input service
(`services/graphite/config.go`). It covers the settings record, its defaults
(`NewConfig`, `WithDefaults`), the map of default tags (`DefaultTags`) and the
static validator (`Validate` with `validateTemplates`, `validateTags`,
`validateTemplate`, `validateFilter` and `validateTag`).

A template line is up to three whitespace-separated fields,
`[filter] pattern [tags]`. The validator accepts a configuration when three
things hold. First, every template line has a pattern with exactly one dot
segment equal to `measurement` or `measurement*`. Second, its filter has dot
segments that are non-empty and either exactly `*` or free of `*`. Third,
its comma-separated static tags, and the default tags, are all `key=value`
with a single `=` and non-empty sides. Template lines are checked in order
and the first failure is reported; the default tags are looked at only when
every template line passed.

Files:

- `strings.dfy` (module `Strings`) holds the two parts of Go's `strings`
  package the validator relies on. `Split` with a one-character separator
  always returns one more piece than there are separators, so
  `Split("", '.') == [""]`. `Fields` splits at runs of `unicode.IsSpace`
  characters and never returns an empty field. Each has its partner:
  `Join` undoes `Split`, and `Interleave` with the white space `Gaps(s)`
  undoes `Fields`.
- `config.dfy` (module `GraphiteConfig`) holds the model itself.
  - The Go struct is a `datatype`, because every method on it either
    reads it or works on a copy. The loops of `validateTemplates`,
    `validateTags`, `validateTemplate`, `validateFilter` and `DefaultTags`,
    and the field-by-field overwriting of `WithDefaults`, are `method`s.
  - Each such method except `DefaultTags` is proved equal to a
    specification function. For example, `ValidateTemplates` is proved
    equal to `TemplatesError`, the first error over the lines.
    `DefaultTags` is specified by describing its map key by key.
  - Lemmas then characterise those functions: each check passes exactly
    when the property the error message names holds, and the first failure
    is the one reported.
  - Errors are kinds that carry the index or the offending text, not the
    message strings.

Two behaviours of the code are easy to miss. The model follows the code on
both.

- A template line with a single field uses the whole raw line as its pattern
  and the empty string as its filter. A one-field line has no filter, and one
  might expect it to apply to every path. The validator rejects it instead:
  `validateFilter("")` rejects the one blank segment of `""`, so the line
  fails on its pattern, or else with a blank-filter-section error
  (`OneFieldTemplateRejected`).
- The second "missing template" branch of `validateTemplates`
  (`services/graphite/config.go:95-97`) cannot be reached, because
  `strings.Fields` never returns an empty field. `ValidateTemplateLine`
  keeps the branch and proves it dead with `assert false`.

## Model

| member | source | states |
|---|---|---|
| Strings.Split | services/graphite/config.go:177 | `strings.Split` with a one-character separator: at least one piece, none containing the separator, and more than one exactly when the separator occurs |
| Strings.SplitCount | services/graphite/config.go:177-178 | the number of pieces is the number of separators plus one |
| Strings.SplitJoin | services/graphite/config.go:177 | joining the pieces with the separator gives the string back |
| Strings.SplitUnique | services/graphite/config.go:177 | any separator-free pieces that join to `s` are exactly `Split(s)` |
| Strings.SplitAround | services/graphite/config.go:164 | splitting `a + sep + b` is splitting `a`, then splitting `b` |
| Strings.Fields | services/graphite/config.go:90 | `strings.Fields`: every field is non-empty and free of white space, and there are none exactly when the line is blank |
| Strings.FieldsRebuild | services/graphite/config.go:90 | the fields of `s`, interleaved with the white space `Gaps(s)` around them (blank, and non-empty between two fields), give `s` back |
| Strings.FieldsOfInterleave | services/graphite/config.go:90 | `Fields` recovers the words of any interleaving with blank gaps that are non-empty between words, whatever white space and however much of it: the fields are the maximal non-blank runs, in order |
| Strings.FieldsOfJoin | services/graphite/config.go:90 | `Fields` recovers words joined by single spaces |
| GraphiteConfig.NewConfig | services/graphite/config.go:39-46 | the four defaulted settings hold their defaults `:2003`, `graphite`, `tcp` and `one`; every other setting is its zero value |
| GraphiteConfig.Defaulted | services/graphite/config.go:50-65 | every empty defaulted setting gets its default, every non-empty one is kept, all other settings are unchanged |
| GraphiteConfig.WithDefaults | services/graphite/config.go:50-65 | copying and then overwriting the empty defaulted settings gives `Defaulted(c)`; the input value is not changed |
| GraphiteConfig.DefaultedKeepsComplete | services/graphite/config.go:50-65 | a configuration whose defaulted settings are all set is returned unchanged |
| GraphiteConfig.DefaultedIdempotent | services/graphite/config.go:39-65 | applying the defaults twice equals applying them once, and `NewConfig()` is left as it is |
| GraphiteConfig.TagKey | services/graphite/config.go:70-71 | a tag's key is `=`-free and followed in the tag by `=`: the text before its first `=` |
| GraphiteConfig.TagValue | services/graphite/config.go:70-71 | a tag's value is `=`-free, follows the key and its `=`, and ends at the end of the tag or at a second `=` |
| GraphiteConfig.TagKeyValue | services/graphite/config.go:70-71 | the tag `k=v`, or `k=v=...`, with `=`-free `k` and `v`, has key `k` and value `v` |
| GraphiteConfig.DefaultTags | services/graphite/config.go:67-74 | the map has exactly the tags' keys, and each key holds the value of the last tag with that key |
| GraphiteConfig.FirstError | services/graphite/config.go:137-142 | none when every check passed; otherwise the error of a failing check with only passing checks before it |
| GraphiteConfig.FirstErrorAt | services/graphite/config.go:137-142 | when the checks before `k` pass and check `k` fails, check `k`'s error is the one reported |
| GraphiteConfig.ValidateTag | services/graphite/config.go:176-187 | a tag error always names the offending tag |
| GraphiteConfig.TagValidIff | services/graphite/config.go:176-187 | a tag passes if and only if it is `k=v` with `k`, `v` non-empty and free of `=`; so `foo`, `foo=bar=`, `=` and the empty tag fail |
| GraphiteConfig.TagRoundTrip | services/graphite/config.go:176-187 | a passing tag has a non-empty key and value that rebuild it as `key=value` |
| GraphiteConfig.TagsError | services/graphite/config.go:136-143 | a tag list passes if and only if every tag passes |
| GraphiteConfig.ValidateTags | services/graphite/config.go:136-143 | the loop reports the first invalid tag, in order, or none |
| GraphiteConfig.StaticTagsError | services/graphite/config.go:124-131 | static tags pass if and only if they are empty or every comma-separated token is a valid tag |
| GraphiteConfig.TrailingCommaRejected | services/graphite/config.go:124-131 | static tags ending in a comma are rejected, because the last token is empty |
| GraphiteConfig.MeasurementsZero | services/graphite/config.go:147-153 | no measurement is counted if and only if no segment is `measurement` or `measurement*` |
| GraphiteConfig.MeasurementsOne | services/graphite/config.go:147-153 | one measurement is counted if and only if exactly one segment is a measurement |
| GraphiteConfig.PatternError | services/graphite/config.go:145-161 | a pattern error is "no measurement" or "multiple measurements", naming the pattern |
| GraphiteConfig.PatternValidIff | services/graphite/config.go:145-161 | a pattern passes if and only if exactly one of its dot segments is a measurement; the error is "no measurement" if and only if none is |
| GraphiteConfig.ValidateTemplate | services/graphite/config.go:145-161 | the flag-carrying loop that stops at the second measurement reports what `PatternError` says |
| GraphiteConfig.SegmentError | services/graphite/config.go:165-171 | a filter segment fails if and only if it is empty or holds `*` without being exactly `*` |
| GraphiteConfig.FilterError | services/graphite/config.go:163-174 | a filter passes if and only if every dot segment is valid; its error is a blank-section or wildcard error naming the filter |
| GraphiteConfig.ValidateFilter | services/graphite/config.go:163-174 | the loop reports the first invalid segment's error, in order, or none |
| GraphiteConfig.EmptyFilterRejected | services/graphite/config.go:164-166 | the empty filter is rejected as a blank section |
| GraphiteConfig.LeadingDotRejected | services/graphite/config.go:164-166 | a filter starting with a dot is rejected as a blank section |
| GraphiteConfig.TrailingDotRejected | services/graphite/config.go:164-166 | a filter ending with a dot is rejected |
| GraphiteConfig.DoubledDotRejected | services/graphite/config.go:164-166 | a filter with two dots in a row is rejected |
| GraphiteConfig.PartsError | services/graphite/config.go:115-131 | a template's parts pass if and only if the pattern, the filter and the static tags all pass |
| GraphiteConfig.TemplateLineError | services/graphite/config.go:90-131 | what one template line reports: missing, with its index, if and only if the line is blank; an invalid format with more than three fields; otherwise the pattern, filter and tags picked by the number of fields, checked in that order |
| GraphiteConfig.OneFieldTemplateRejected | services/graphite/config.go:103-121 | a one-field line fails with its pattern error or, failing that, with the blank section of the empty filter |
| GraphiteConfig.TemplateValidIff | services/graphite/config.go:90-131 | a line passes if and only if it has two or three fields, its pattern and filter pass, and with three fields every static tag passes |
| GraphiteConfig.TemplatesError | services/graphite/config.go:88-134 | the templates pass if and only if every line passes |
| GraphiteConfig.ValidateTemplateLine | services/graphite/config.go:90-131 | one pass of the loop body reports what `TemplateLineError` says; the second missing-template branch is unreachable |
| GraphiteConfig.ValidateTemplates | services/graphite/config.go:88-134 | the loop reports the first failing line's error, in order, or none |
| GraphiteConfig.ValidationOutcome | services/graphite/config.go:76-86 | a configuration validates if and only if every template line and every default tag passes |
| GraphiteConfig.Validate | services/graphite/config.go:76-86 | templates first, then default tags, giving `ValidationOutcome` |
| GraphiteConfig.FirstFailureReported | services/graphite/config.go:76-86 | the first failing template's error is reported, whatever the default tags; only when every template passes does the first invalid default tag decide |
| GraphiteConfig.NewConfigValid | services/graphite/config.go:76-86 | the configuration `NewConfig` returns validates, before and after applying the defaults |

## Left out

- TOML decoding of the settings, and the `toml.Duration` type of
  `BatchTimeout`. The duration is kept as a plain integer, and TOML parsing
  belongs to a foreign library.
- The path-matching and decomposition engine that uses the validated
  templates at ingest time. That engine is not part of this model; the
  configuration file only validates.
- The exact error message text. Errors are kinds that carry the index or the
  offending text.
- Go strings are byte sequences, and `strings.Fields` decodes UTF-8 before
  calling `unicode.IsSpace`. Here strings are sequences of characters, and
  `IsSpace` tests the code point directly.
- DefaultTags: modelled only for tags that each contain an `=`. On a tag
  without one, the Go code indexes past the end of the split result and
  panics.
- ValidateTemplateLine: the body of `validateTemplates`' loop is extracted
  into its own method. The loop and its early returns are otherwise as in
  the source.
