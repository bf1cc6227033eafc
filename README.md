# jevents event translator, modelled in Dafny

This project models the event translator of `jevents/jevents.c`. It reads the token
array of a JSON event list and, for every event object, builds three C strings: the
event `name`, the perf `event` encoding (`event=0xc0,umask=0x1,...`) and the
description `desc`. It then hands them to a callback. The model covers:

- `addfield`, `fixname` and `fixdesc` over NULL-able growable strings;
- `cut_comma`;
- the two lookup tables `fields` and `msrmap`, with `match_field` and `lookup_msr`;
- the static warn-once latch `warned` of `lookup_msr`;
- the per-field rule chain, the deferred PEBS/MSR finalisation, and the object/field
  traversal of `json_events` with its result codes.

The source is imperative, and the model keeps that form. A `CStr` class is one `char *`
that `addfield`, `fixname` and `fixdesc` change in place. A `Translator` class holds the
`warned` static. Its methods run the loops of `json_events`, and each method is proved
equal to a pure specification:

- `FieldStep` is one pass of the rule chain.
- `Finalise` is the deferred suffixes.
- `ScanFields` is the field loop.
- `VisitObject` is one object.
- `Objects` and `Translate` are the object loop and the whole call.

Lemmas then state what the source promises about these specifications.

Modules, one per file:

- `Wrappers` (`wrappers.dfy`): `Option`, which stands for a NULL-able pointer.
- `Json` (`json.dfy`): tokens `{kind, start, end, size}` over a text buffer, and
  `json_streq` as exact equality of the token text with a literal.
- `CText` (`ctext.dfy`): `addfield`, `fixname`, `fixdesc`, `isspace`/`tolower` in the C
  locale, and `strstr` as `Contains`.
- `Tables` (`tables.dfy`): the `fields` and `msrmap` tables, `cut_comma` and
  `match_field`.
- `Rules` (`rules.dfy`): the rule chain and the deferred finalisation.
- `Traversal` (`traversal.dfy`): the loops of `json_events` as functions, plus
  `Translate`.
- `Events` (`events.dfy`): `lookup_msr` and `json_events` as methods of `Translator`.
- `TextProperties` (`text_properties.dfy`), `RuleProperties` (`rule_properties.dfy`),
  `TraversalProperties` (`traversal_properties.dfy`) and `TraversalExamples`
  (`traversal_examples.dfy`): the lemmas.

How the environment of `json_events` is modelled:

- The file and its tokenizer are outside the model. `JsonEvents` receives the result
  of `parse_json`: `None` for a failed parse, or a `Doc` holding the buffer, the token
  array and the token count `len`.
- The callback is a script of return codes. Call number k returns `replies[k]`, and 0
  once the script runs out. The model records each call's `(name, event, desc)`.
- `EIO` is 5, so the failure code is -5.

Behaviours of the code that the model keeps as written:

- Only the literal `"0"` counts as zero. `UMask: "0x0"` is therefore encoded as
  `,umask=0x0`. The zero test reads the whole value before `cut_comma` runs, so
  `EventCode: "0,1"` gives `event=0`.
- Errata appends `" Spec update: <value>"` after `". "` when the description is
  non-empty, which leaves two spaces after the period; on a NULL or empty description
  it appends `" Spec update: <value>"` alone.
- `fixdesc` removes trailing white space only together with a period that precedes it.
- An object whose name or event is NULL sets `err` to -EIO and ends the loop.
- A structural failure (an `EXPECT`) returns the current `err`. In the first object
  that is -EIO; after an accepted object it is 0.
- After the object loop, however it ended, the result is 0 when the cursor equals
  `len`, and the current `err` otherwise. So `[{}]` returns 0 with no call made, while
  `[{},{}]` returns -EIO.
- The doc comment of `json_events` promises -1 on failure. The code returns -EIO (-5);
  it returns -1 only when the callback itself returned -1.
- The PEBS rule tests for `"(Precise Event)"` with a capital E. The note the code
  appends, `"(Precise event)"`, is added only after the field loop, so the test can
  match only text that a BriefDescription or Errata value brought in.

Undefined behaviour in the source gets an explicit policy:

- `fixdesc` on an empty or all-blank string reads `s[-1]`. The model leaves such a
  string unchanged.
- `strstr` on a NULL description counts as "not found".
- A token index at or past the end of the token array is a structural failure.

## Model

| member | source | states |
|---|---|---|
| `CText.Appended` | jevents/jevents.c:76-93 | the old text is kept as a prefix; after it comes the separator (only when the old text was non-empty), then `a`, then the token text |
| `CText.CStr.constructor` | jevents/jevents.c:221 | a string slot starts out NULL |
| `CText.CStr.AddField` | jevents/jevents.c:76-93 | addfield leaves the buffer non-NULL, holding exactly `Appended` of the old buffer, the separator, `a` and the token text (a NULL token adds nothing) |
| `CText.Lowered` | jevents/jevents.c:95-99 | every character is passed through tolower, and the length is unchanged |
| `CText.CStr.FixName` | jevents/jevents.c:95-99 | the in-place loop leaves exactly `Lowered` of the old text |
| `TextProperties.LoweredIsLower` | jevents/jevents.c:95-99 | after fixname no upper-case letter is left, and a second fixname changes nothing |
| `CText.LastNonSpace` | jevents/jevents.c:103-108 | the backwards scan stops on the last non-white-space character, or at -1 when there is none |
| `CText.FixedDesc` | jevents/jevents.c:101-111 | fixdesc's result is a prefix of the input; it is either the input or the input cut at a period that only white space follows |
| `CText.CStr.FixDesc` | jevents/jevents.c:101-111 | the in-place fixdesc leaves exactly `FixedDesc` of the old text |
| `TextProperties.FixDescCut` | jevents/jevents.c:106-110 | a period followed only by white space is where fixdesc cuts, dropping the period and the white space |
| `TextProperties.FixDescKeeps` | jevents/jevents.c:109-110 | without such a period, fixdesc changes nothing |
| `TextProperties.FixDescExample` | jevents/jevents.c:101-111 | "Some text.  " becomes "Some text" |
| `TextProperties.FixDescKeepsExamples` | jevents/jevents.c:107-110 | trailing white space without a period stays, and so does a period followed by other text |
| `CText.Contains` | jevents/jevents.c:247-248 | the strstr test holds when the pattern is a prefix of the text, and only when the pattern is no longer than the text |
| `TextProperties.ContainsAt` | jevents/jevents.c:247-248 | the strstr test finds the pattern at every position where it occurs |
| `TextProperties.ContainsHasPosition` | jevents/jevents.c:247-248 | the strstr test reports a match only where the pattern occurs at some position |
| `Tables.Find` | jevents/jevents.c:164-165 | the table scan returns the index of the first row with the key, and None only when no row has it |
| `Tables.FindFirst` | jevents/jevents.c:164-169 | when row k matches and no earlier row does, the scan stops at k |
| `Tables.FindAbsent` | jevents/jevents.c:180-182 | when no row matches, the scan finds nothing |
| `Tables.KernelPrefix` | jevents/jevents.c:164-165 | the `fields` scan gives the prefix of a row whose name is the field name, and nothing exactly when no row has that name |
| `Tables.MsrLookup` | jevents/jevents.c:179-182 | the `msrmap` search gives a row of the table whose index equals the comma-cut value, and nothing exactly when no row's index does |
| `Tables.CommaCut` | jevents/jevents.c:147-156 | the cut end is the first comma in [start, end), or end when there is none |
| `Tables.CutComma` | jevents/jevents.c:147-156 | cut_comma moves the end to the first comma or leaves it; the end never grows; start, kind and size are untouched |
| `Tables.MatchField` | jevents/jevents.c:158-171 | match_field reports a match exactly for a `fields` name whose value is not "0"; on a match it appends ",prefix" plus the value up to its first comma to the event; otherwise the event is untouched |
| `Events.Translator.constructor` | jevents/jevents.c:176 | the static latch starts clear, and no diagnostic has been written |
| `Events.Translator.LookupMsr` | jevents/jevents.c:173-189 | lookup_msr returns the msrmap row whose index equals the comma-cut value, or NULL; a miss sets the latch; the diagnostic is written on the first miss only, so at most once |
| `Rules.FieldStep` | jevents/jevents.c:239-262 | one pass of the rule chain keeps the deferred MSRValue and PEBS tokens within the buffer, and reports an MSR miss exactly for a non-zero MSRIndex that no msrmap row matches |
| `Events.Translator.ApplyRule` | jevents/jevents.c:239-262 | the imperative rule chain leaves the slots that `FieldStep` gives; the latch is set exactly when it was set before or the step missed |
| `RuleProperties.TableNamesAreNotNamedFields` | jevents/jevents.c:137-143 | no `fields` name is one of the names the later rules test, so the table always wins for its fields |
| `RuleProperties.TableFieldRule` | jevents/jevents.c:239-241 | a table field with a value other than "0" appends ",prefix" plus the comma-cut value to the event and changes nothing else |
| `RuleProperties.ZeroTableFieldIgnored` | jevents/jevents.c:239-262 | a table field whose value is exactly "0" changes nothing |
| `RuleProperties.UnknownFieldIgnored` | jevents/jevents.c:262-263 | a field no rule knows changes nothing |
| `RuleProperties.HexZeroIsEncoded` | jevents/jevents.c:239-240 | UMask "0x0" is not zero and is encoded as ",umask=0x0" |
| `RuleProperties.ZeroTestBeforeCommaCut` | jevents/jevents.c:239-240 | the zero test reads the whole value: EventCode "0,1" gives "event=0" |
| `RuleProperties.EventNameRule` | jevents/jevents.c:242-243 | EventName appends its value to the name, with no separator |
| `RuleProperties.BriefDescriptionRule` | jevents/jevents.c:244-246 | BriefDescription appends its value to the description, then fixdesc normalises the whole description |
| `RuleProperties.PebsRule` | jevents/jevents.c:247-249 | a non-zero PEBS is deferred unless the description already contains "(Precise Event)"; otherwise nothing changes |
| `RuleProperties.MsrIndexRule` | jevents/jevents.c:250-251 | a non-zero MSRIndex replaces the MSR row with the lookup result (NULL on a miss, which is reported); a zero one changes nothing |
| `RuleProperties.MsrValueRule` | jevents/jevents.c:252-253 | MSRValue is deferred whatever its value, "0" included |
| `RuleProperties.ErrataRule` | jevents/jevents.c:254-257 | Errata other than "null" appends " Spec update: value", after ". " when the description is non-empty (two spaces after the period); "null" changes nothing |
| `RuleProperties.DataLaRule` | jevents/jevents.c:258-261 | a non-zero Data_LA appends " Supports address when precise" the same way, without the value text |
| `Rules.Finalise` | jevents/jevents.c:265-274 | the deferred step touches only desc (when PEBS was deferred) and event (when an MSR row was found), and keeps their old text as a prefix |
| `Events.Translator.FinaliseRecord` | jevents/jevents.c:265-274 | the imperative deferred step leaves exactly the slots `Finalise` gives |
| `Rules.PreciseNote` | jevents/jevents.c:266-271 | the deferred PEBS note is "(Must be precise)" exactly when the value is "2", and "(Precise event)" otherwise |
| `RuleProperties.PreciseNoteRule` | jevents/jevents.c:265-272 | a deferred PEBS of "2" adds "(Must be precise)", and any other deferred value adds "(Precise event)", after a space when the description is non-empty |
| `RuleProperties.MsrClauseLast` | jevents/jevents.c:273-274 | a found MSR row appends prefix plus MSRValue text (the bare prefix without MSRValue) as the last clause of the event, after a comma when the event is non-empty |
| `Traversal.ScanFields` | jevents/jevents.c:228-237 | the field loop fails exactly when one of the pairs it reaches (every second token from j up to obj->size) is missing or not two strings; otherwise it ends at the first even j at or past obj->size, so an odd size is rounded up, with the deferred tokens within the buffer; an MSR miss is never forgotten |
| `Traversal.ScanPair` | jevents/jevents.c:239-264 | after one pair, the rest of the loop fails exactly when a later pair is not two strings, and otherwise ends at that same j; the bounds and the miss flag are kept |
| `Events.Translator.ScanObject` | jevents/jevents.c:228-264 | the imperative field loop ends as `ScanFields` says: slots, final j, or failure; the latch is set exactly when it was set before or a lookup missed |
| `Traversal.VisitObject` | jevents/jevents.c:221-282 | the callback is asked for only with a name that has no upper-case letter |
| `Events.Translator.ReadObject` | jevents/jevents.c:221-282 | one object: a structural failure makes no call; otherwise the call `VisitObject` asks for is made and its reply is err, or no call is made and err is -EIO |
| `Traversal.ObjectsAtObject` | jevents/jevents.c:275-285 | after an object: a failure returns err; a missing name or event breaks with -EIO; a non-zero reply breaks with that reply; a zero reply moves the cursor past the object's fields and goes on |
| `Traversal.Objects` | jevents/jevents.c:220-291 | from any point of the object loop, the calls made so far are kept as a prefix of all calls, and a set latch stays set |
| `Events.Translator.NextObject` | jevents/jevents.c:220-286 | one pass of the object loop continues, breaks or returns exactly as `Objects` does |
| `Traversal.Translate` | jevents/jevents.c:203-292 | a failed parse or a top-level token that is not an array gives -EIO with no call; once set, the lookup_msr latch stays set through a whole call |
| `Events.Translator.JsonEvents` | jevents/jevents.c:203-292 | json_events returns the result code, makes the calls and leaves the latch exactly as `Translate` says |
| `TraversalProperties.VisitorLowerNames` | jevents/jevents.c:276-278 | every call the document's objects ask for carries a lower-cased name |
| `TraversalProperties.ObjectsCalls` | jevents/jevents.c:275-286 | from any point of the object loop, earlier calls are kept, at most one call is made per remaining object, and every call but the last got reply 0 |
| `TraversalProperties.ObjectsResult` | jevents/jevents.c:275-291 | from any point of the object loop whose err is 0 or -EIO, the result is 0, -EIO or the last call's reply |
| `TraversalProperties.ObjectsLowerNames` | jevents/jevents.c:276-278 | from any point of the object loop, every call's name is lower case |
| `TraversalProperties.ResultCodes` | jevents/jevents.c:201-291 | json_events returns 0, -EIO (-5) or the value the last callback returned; it never produces -1 of its own |
| `TraversalProperties.VisitCallNeedsPair` | jevents/jevents.c:228-237 | an object that asks for a call has a first pair of tokens: with no pairs the name stays NULL |
| `TraversalProperties.VisitorCallsBeforeEnd` | jevents/jevents.c:225-237 | when len is the number of tokens, no calling object sits on the token just before len |
| `TraversalProperties.ObjectsNonZeroReply` | jevents/jevents.c:278-288 | from any point of the object loop, a non-zero reply to the last call is the result: the loop breaks on it and the cursor check fails |
| `TraversalProperties.NonZeroReplyIsResult` | jevents/jevents.c:278-291 | json_events returns the non-zero value the callback returned, when len is the number of tokens |
| `TraversalProperties.StopsAfterNonZeroReply` | jevents/jevents.c:278-284 | no call follows the first non-zero reply |
| `TraversalProperties.AtMostOneCallPerObject` | jevents/jevents.c:215-286 | the callback runs at most once per element of the top-level array, and never when the parse failed or the top-level token is not an array, which return -EIO |
| `TraversalProperties.NamesAreLowerCase` | jevents/jevents.c:276-278 | every name passed to the callback has been lower-cased |
| `TraversalExamples.TrailingEmptyObjectIsMasked` | jevents/jevents.c:275-288 | "[{}]" returns 0 with no call: the -EIO of the empty object is overwritten because the cursor is at the end |
| `TraversalExamples.LeadingEmptyObjectFails` | jevents/jevents.c:275-291 | "[{},{}]" returns -EIO with no call |
| `TraversalExamples.OneRecordFields` | jevents/jevents.c:228-262 | the pairs EventName "Ab" and EventCode "0x3c" set the name to "Ab" and the event to "event=0x3c" |
| `TraversalExamples.FirstRecordVisit` | jevents/jevents.c:265-279 | that object asks for the call ("ab", "event=0x3c", NULL) and ends its field loop at j = 4 |
| `TraversalExamples.FirstRecordPass` | jevents/jevents.c:220-285 | the first pass over that object makes the call and either breaks on a non-zero reply or moves the cursor to token 6 |
| `TraversalExamples.OneRecordCall` | jevents/jevents.c:220-291 | a document holding only that record makes that one call and returns the callback's reply |
| `TraversalExamples.NonObjectAfterRecord` | jevents/jevents.c:220-291 | a second element that is not an object returns the previous err, which is 0 when the callback accepted the record |
| `TraversalExamples.ExtraTokensAfterRecord` | jevents/jevents.c:287-288 | leftover tokens after the array fail the cursor check and return the current err, which is 0 after an accepted record |
| `TraversalExamples.OneEventCall` | jevents/jevents.c:203-292 | the concrete document of that record makes the call ("ab", "event=0x3c", NULL) and returns the reply |

## Left out

- `json_default_name` (jevents/jevents.c:43-74) reads environment variables, checks
  files and builds paths. That is I/O; `JsonEvents` starts from the parse result.
- `parse_json`, `free_json`, `json_line`, `json_name` and the jsmn tokenizer are not
  part of this model. The token array, the buffer and `len` are inputs.
  `jsmn.c`/`json.c` are not part of this model either. `json_streq` is taken to be
  exact, case-sensitive equality of the token text with a literal.
- The text of the `EXPECT` diagnostics and of the "Unknown MSR" message is left out.
  Only the control flow is modelled: a failed `EXPECT` returns the current `err`. The
  latch and a count of the diagnostics written are modelled too.
- `realloc` failure, which leads to `exit(ENOMEM)`, and the `free` calls are left out.
  Strings are Dafny sequences, so allocation cannot fail.
- What the callback does is left out. It is a script of return codes, and the model
  records its arguments.
- The `data` pointer passed through to the callback is left out.
- The `fn` argument is left out. The file is already parsed.
- The NUL terminator and the byte layout of the C strings are left out. A C string is
  a `seq<char>`, and `fixdesc`'s `*e = 0` becomes a cut of the sequence.
- `isspace` and `tolower` are modelled in the C locale only.
- `TraversalProperties.NonZeroReplyIsResult`: stated only when the token count `len` is
  the length of the token array, as the parser produces it. With a smaller `len`, a
  break on the object just before `len` would pass the cursor check and return 0.
- `Traversal.VisitObject`: the contract states only the lower-case name. The full
  shape of a visit is stated by `Events.Translator.ReadObject` and the traversal
  lemmas.
- `Rules.FieldStep`: its contract states only the span and miss facts. What each rule
  does is stated by the lemmas `RuleProperties.*Rule`.
