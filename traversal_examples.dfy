/** Whole documents run through the traversal. */
module TraversalExamples {
  import opened Wrappers
  import opened Json
  import opened Rules
  import opened CText
  import opened Tables
  import opened Traversal
  import opened RuleProperties

  /** "[{}]": the empty object has neither name nor event, so err becomes -EIO and the
      loop breaks; the cursor then stands at the end of the tokens and the result is 0
      with no call made. */
  lemma TrailingEmptyObjectIsMasked(replies: seq<int>, warned: bool)
    ensures Translate(Some(Doc("[{}]", [Token(Array, 0, 4, 1), Token(Object, 1, 3, 0)], 2)), replies, warned) ==
            Outcome(0, [], warned)
  {
    var d := Doc("[{}]", [Token(Array, 0, 4, 1), Token(Object, 1, 3, 0)], 2);
    assert Visitor(d)(1) == Visited(None, false, 0);
  }

  /** "[{},{}]": the same empty object followed by another is reported as -EIO, since
      the cursor stops short of the end. */
  lemma LeadingEmptyObjectFails(replies: seq<int>, warned: bool)
    ensures Translate(Some(Doc("[{},{}]", [Token(Array, 0, 7, 2), Token(Object, 1, 3, 0),
                                          Token(Object, 4, 6, 0)], 3)), replies, warned) ==
            Outcome(-EIO, [], warned)
  {
    var d := Doc("[{},{}]", [Token(Array, 0, 7, 2), Token(Object, 1, 3, 0), Token(Object, 4, 6, 0)], 3);
    assert Visitor(d)(1) == Visited(None, false, 0);
  }

  /** A top-level array whose first element is an object with the pairs EventName:
      "Ab" and EventCode: "0x3c", over any buffer. */
  predicate FirstRecord(d: Doc)
  {
    WellSpanned(d.src, d.toks) && |d.toks| >= 6 &&
    d.toks[0].kind == Array && d.toks[0].size >= 1 &&
    d.toks[1].kind == Object && d.toks[1].size == 4 &&
    d.toks[2].kind == String && d.toks[3].kind == String &&
    d.toks[4].kind == String && d.toks[5].kind == String &&
    Text(d.src, d.toks[2]) == "EventName" && Text(d.src, d.toks[3]) == "Ab" &&
    Text(d.src, d.toks[4]) == "EventCode" && Text(d.src, d.toks[5]) == "0x3c"
  }

  /** Nothing but that record: one element, and the cursor ends on the last token. */
  predicate OneRecord(d: Doc)
  {
    FirstRecord(d) && |d.toks| == 6 && d.len == 6 && d.toks[0].size == 1
  }

  /** The field loop over the record sets the name and the event. */
  lemma OneRecordFields(d: Doc)
    requires FirstRecord(d)
    ensures ScanFields(d.src, d.toks, 2, 4, 0, Blank, false) ==
            Scanned(Blank.(name := Some("Ab"), event := Some("event=0x3c")), false, 4)
  {
    var s1 := Blank.(name := Some("Ab"));
    var s2 := s1.(event := Some("event=0x3c"));
    EventNameRule(d.src, d.toks[2], d.toks[3], Blank);
    assert Contents(None) + "Ab" == "Ab";
    assert FieldStep(d.src, d.toks[2], d.toks[3], Blank) == Step(s1, false);
    var t := d.toks[5];
    assert t in d.toks;
    assert d.src[t.start..t.end] == "0x3c";
    assert forall k :: t.start <= k < t.end ==> d.src[k] != ',' by {
      forall k | t.start <= k < t.end
        ensures d.src[k] != ','
      {
        assert d.src[k] == "0x3c"[k - t.start];
      }
    }
    assert CommaCut(d.src, t.start, t.end) == t.end;
    assert KernelPrefix("EventCode") == Some("event=");
    assert !StrEq(d.src, t, "0");
    TableFieldRule(d.src, d.toks[4], t, s1);
    assert Appended(None, ",", "event=", "0x3c") == "event=0x3c";
    assert ScanPair(d.src, d.toks, 2, 4, 2, s1, false) == ScanFields(d.src, d.toks, 2, 4, 4, s2, false);
    assert ScanPair(d.src, d.toks, 2, 4, 0, Blank, false) == ScanFields(d.src, d.toks, 2, 4, 2, s1, false);
  }

  /** The first pass of the object loop over such a document: one call, whose reply
      either breaks the loop (cursor just past the object token) or moves the cursor
      past the record's four field tokens. */
  lemma FirstRecordPass(d: Doc, replies: seq<int>, warned: bool)
    requires FirstRecord(d)
    ensures var c := Call("ab", "event=0x3c", None);
            var e := Reply(replies, 0);
            Translate(Some(d), replies, warned) ==
            if e != 0 then CursorCheck(d, 2, e, [c], warned)
            else Objects(d, Visitor(d), replies, 1, 6, 0, [c], warned)
  {
    FirstRecordVisit(d);
    ObjectsAtObject(d, Visitor(d), replies, 0, 1, -EIO, [], warned);
    var c := Call("ab", "event=0x3c", None);
    assert [] + [c] == [c];
    assert Translate(Some(d), replies, warned) == Objects(d, Visitor(d), replies, 0, 1, -EIO, [], warned);
  }

  /** The visit of the record: one call with the lower-cased name, no MSR miss, and the
      field loop ends at j == 4. */
  lemma FirstRecordVisit(d: Doc)
    requires FirstRecord(d)
    ensures Visitor(d)(1) == Visited(Some(Call("ab", "event=0x3c", None)), false, 4)
  {
    OneRecordFields(d);
    assert Lowered("Ab") == "ab";
    assert Visitor(d)(1) == VisitObject(d.src, d.toks, 2, 4);
  }

  /** One complete record: the callback receives the lower-cased name, the encoded
      event and no description, and json_events returns what the callback returned
      (on a non-zero reply the loop breaks and the cursor check fails, which keeps that
      reply; on 0 the cursor reaches the end). */
  lemma OneRecordCall(d: Doc, replies: seq<int>, warned: bool)
    requires OneRecord(d)
    ensures Translate(Some(d), replies, warned) ==
            Outcome(Reply(replies, 0), [Call("ab", "event=0x3c", None)], warned)
  {
    FirstRecordPass(d, replies, warned);
  }

  /** A second array element that is not an object is a structural failure, and it
      returns the `err` of the previous pass, which is 0 when the callback accepted the
      record: the malformed element is not reported. */
  lemma NonObjectAfterRecord(d: Doc, replies: seq<int>, warned: bool)
    requires FirstRecord(d) && |d.toks| == 7 && d.toks[0].size == 2 && d.toks[6].kind != Object
    ensures Translate(Some(d), replies, warned) ==
            Outcome(if Reply(replies, 0) != 0 && d.len != 2 then Reply(replies, 0) else 0,
                    [Call("ab", "event=0x3c", None)], warned)
  {
    FirstRecordPass(d, replies, warned);
  }

  /** Tokens left over after the last element make the cursor check fail, and that
      also returns the current `err`: 0 when the callback accepted the record. */
  lemma ExtraTokensAfterRecord(d: Doc, replies: seq<int>, warned: bool)
    requires FirstRecord(d) && |d.toks| == 7 && d.len == 7 && d.toks[0].size == 1
    ensures Translate(Some(d), replies, warned) ==
            Outcome(Reply(replies, 0), [Call("ab", "event=0x3c", None)], warned)
  {
    FirstRecordPass(d, replies, warned);
  }

  /** The tokens of [{"EventName": "Ab", "EventCode": "0x3c"}] over a buffer that holds
      only the text of its strings (the array and the object span all of it). */
  const OneEvent := Doc("EventNameAbEventCode0x3c",
                        [Token(Array, 0, 24, 1), Token(Object, 0, 24, 4),
                         Token(String, 0, 9, 1), Token(String, 9, 11, 0),
                         Token(String, 11, 20, 1), Token(String, 20, 24, 0)], 6)

  lemma OneEventIsOneRecord()
    ensures OneRecord(OneEvent)
  {
    var src := OneEvent.src;
    assert src[0..9] == "EventName" && src[9..11] == "Ab";
    assert src[11..20] == "EventCode" && src[20..24] == "0x3c";
  }

  /** The concrete document: one call, and json_events returns its reply. */
  lemma OneEventCall(replies: seq<int>, warned: bool)
    ensures Translate(Some(OneEvent), replies, warned) ==
            Outcome(Reply(replies, 0), [Call("ab", "event=0x3c", None)], warned)
  {
    OneEventIsOneRecord();
    OneRecordCall(OneEvent, replies, warned);
  }
}
