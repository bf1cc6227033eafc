/** Properties of the json_events traversal: which result codes it can return, when the
    callback stops it, how many calls it makes, what every call receives, and the
    warn-once latch.  The loop lemmas hold for any visitor; the corollaries about
    Translate instantiate them with the visitor of the document. */
module TraversalProperties {
  import opened Wrappers
  import opened Json
  import opened CText
  import opened Rules
  import opened Traversal

  /** Every call a visitor asks for carries a lower-case name. */
  ghost predicate LowerNames(visit: nat -> Visit)
  {
    forall t: nat :: visit(t).Visited? && visit(t).call.Some? ==> IsLower(visit(t).call.value.name)
  }

  /** The visitor of a document lower-cases every name it hands on. */
  lemma VisitorLowerNames(d: Doc)
    requires WellSpanned(d.src, d.toks)
    ensures LowerNames(Visitor(d))
  {
    forall t: nat | Visitor(d)(t).Visited? && Visitor(d)(t).call.Some?
      ensures IsLower(Visitor(d)(t).call.value.name)
    {
      if t < |d.toks| {
        var v := VisitObject(d.src, d.toks, t + 1, d.toks[t].size);
        assert Visitor(d)(t) == v;
      }
    }
  }

  /** From any state of the object loop: the calls made so far are kept, every call but
      the last one was answered with 0, and at most one call is made per remaining
      object. */
  lemma {:induction false} ObjectsCalls(d: Doc, visit: nat -> Visit, replies: seq<int>, i: nat, tok: nat,
                                        err: int, calls: seq<Call>, warned: bool)
    requires |d.toks| > 0
    requires forall k :: 0 <= k < |calls| ==> Reply(replies, k) == 0
    ensures var o := Objects(d, visit, replies, i, tok, err, calls, warned);
            |calls| <= |o.calls| && o.calls[..|calls|] == calls &&
            |o.calls| - |calls| <= if i <= d.toks[0].size then d.toks[0].size - i else 0
    ensures var o := Objects(d, visit, replies, i, tok, err, calls, warned);
            forall k :: 0 <= k < |o.calls| - 1 ==> Reply(replies, k) == 0
    decreases d.toks[0].size - i
  {
    if i >= d.toks[0].size || tok >= |d.toks| || d.toks[tok].kind != Object {
      return;
    }
    match visit(tok)
    case Malformed(m) =>
    case Visited(None, m, j) =>
    case Visited(Some(c), m, j) =>
      var e := Reply(replies, |calls|);
      if e == 0 {
        ObjectsCalls(d, visit, replies, i + 1, tok + 1 + j, 0, calls + [c], warned || m);
        var o := Objects(d, visit, replies, i + 1, tok + 1 + j, 0, calls + [c], warned || m);
        assert o.calls[..|calls|] == o.calls[..|calls| + 1][..|calls|];
      }
  }

  /** From any state of the object loop whose `err` is 0 or -EIO, the result is 0,
      -EIO or the reply to the last call. */
  lemma {:induction false} ObjectsResult(d: Doc, visit: nat -> Visit, replies: seq<int>, i: nat, tok: nat,
                                         err: int, calls: seq<Call>, warned: bool)
    requires |d.toks| > 0
    requires err == 0 || err == -EIO
    ensures var o := Objects(d, visit, replies, i, tok, err, calls, warned);
            o.err == 0 || o.err == -EIO || (|o.calls| > 0 && o.err == Reply(replies, |o.calls| - 1))
    decreases d.toks[0].size - i
  {
    if i >= d.toks[0].size || tok >= |d.toks| || d.toks[tok].kind != Object {
      return;
    }
    match visit(tok)
    case Malformed(m) =>
    case Visited(None, m, j) =>
    case Visited(Some(c), m, j) =>
      if Reply(replies, |calls|) == 0 {
        ObjectsResult(d, visit, replies, i + 1, tok + 1 + j, 0, calls + [c], warned || m);
      }
  }

  /** From any state of the object loop, with a visitor that lower-cases names, every
      name passed to the callback is lower case. */
  lemma {:induction false} ObjectsLowerNames(d: Doc, visit: nat -> Visit, replies: seq<int>, i: nat,
                                                tok: nat, err: int, calls: seq<Call>, warned: bool)
    requires |d.toks| > 0 && LowerNames(visit)
    requires forall k :: 0 <= k < |calls| ==> IsLower(calls[k].name)
    ensures forall k :: 0 <= k < |Objects(d, visit, replies, i, tok, err, calls, warned).calls| ==>
                       IsLower(Objects(d, visit, replies, i, tok, err, calls, warned).calls[k].name)
    decreases d.toks[0].size - i
  {
    if i >= d.toks[0].size || tok >= |d.toks| || d.toks[tok].kind != Object {
      return;
    }
    match visit(tok)
    case Malformed(m) =>
    case Visited(None, m, j) =>
    case Visited(Some(c), m, j) =>
      assert IsLower(c.name);
      var cs := calls + [c];
      assert forall k :: 0 <= k < |cs| ==> IsLower(cs[k].name) by {
        forall k | 0 <= k < |cs|
          ensures IsLower(cs[k].name)
        {
          if k < |calls| {
            assert cs[k] == calls[k];
          }
        }
      }
      if Reply(replies, |calls|) == 0 {
        ObjectsLowerNames(d, visit, replies, i + 1, tok + 1 + j, 0, cs, warned || m);
        var o := Objects(d, visit, replies, i + 1, tok + 1 + j, 0, cs, warned || m);
        assert Objects(d, visit, replies, i, tok, err, calls, warned) == o;
      }
  }

  /** json_events returns 0, -EIO (-5), or the value the last callback returned; it
      produces no other code of its own. */
  lemma ResultCodes(doc: Option<Doc>, replies: seq<int>, warned: bool)
    requires doc.Some? ==> WellSpanned(doc.value.src, doc.value.toks)
    ensures var o := Translate(doc, replies, warned);
            o.err == 0 || o.err == -EIO || (|o.calls| > 0 && o.err == Reply(replies, |o.calls| - 1))
  {
    if doc.Some? && |doc.value.toks| > 0 && doc.value.toks[0].kind == Array {
      ObjectsResult(doc.value, Visitor(doc.value), replies, 0, 1, -EIO, [], warned);
    }
  }

  /** An object that asks for a call has at least one pair: with no pairs the name stays
      NULL, and otherwise the first pair must be two strings. */
  lemma VisitCallNeedsPair(src: string, toks: seq<Token>, base: nat, size: nat)
    requires WellSpanned(src, toks)
    requires VisitObject(src, toks, base, size).Visited? && VisitObject(src, toks, base, size).call.Some?
    ensures base + 1 < |toks|
  {
    var r := ScanFields(src, toks, base, size, 0, Blank, false);
    if size > 0 {
      assert r.Scanned?;
      assert (base - base - 0) % 2 == 0;
      assert PairOk(toks, base);
    }
  }

  /** No object whose visit asks for a call sits on the token just before the cursor's
      final position `len`. */
  ghost predicate CallsBeforeEnd(d: Doc, visit: nat -> Visit)
  {
    forall t: nat :: visit(t).Visited? && visit(t).call.Some? ==> t + 1 != d.len
  }

  /** When the token count is the length of the token array, the document's visitor
      meets CallsBeforeEnd: a calling object has a pair after it. */
  lemma VisitorCallsBeforeEnd(d: Doc)
    requires WellSpanned(d.src, d.toks) && d.len == |d.toks|
    ensures CallsBeforeEnd(d, Visitor(d))
  {
    forall t: nat | Visitor(d)(t).Visited? && Visitor(d)(t).call.Some?
      ensures t + 1 != d.len
    {
      if t < |d.toks| {
        assert Visitor(d)(t) == VisitObject(d.src, d.toks, t + 1, d.toks[t].size);
        VisitCallNeedsPair(d.src, d.toks, t + 1, d.toks[t].size);
      }
    }
  }

  /** From any state of the object loop: when the last call got a non-zero reply, that
      reply is the result, since the loop breaks on it before the cursor reaches `len`. */
  lemma {:induction false} ObjectsNonZeroReply(d: Doc, visit: nat -> Visit, replies: seq<int>, i: nat,
                                               tok: nat, err: int, calls: seq<Call>, warned: bool)
    requires |d.toks| > 0 && CallsBeforeEnd(d, visit)
    ensures var o := Objects(d, visit, replies, i, tok, err, calls, warned);
            |o.calls| > |calls| && Reply(replies, |o.calls| - 1) != 0 ==>
            o.err == Reply(replies, |o.calls| - 1)
    decreases d.toks[0].size - i
  {
    if i >= d.toks[0].size || tok >= |d.toks| || d.toks[tok].kind != Object {
      return;
    }
    match visit(tok)
    case Malformed(m) =>
    case Visited(None, m, j) =>
    case Visited(Some(c), m, j) =>
      assert tok + 1 != d.len;
      if Reply(replies, |calls|) == 0 {
        ObjectsNonZeroReply(d, visit, replies, i + 1, tok + 1 + j, 0, calls + [c], warned || m);
      }
  }

  /** A non-zero callback result is what json_events returns, whenever the parser's
      token count is the length of the token array. */
  lemma NonZeroReplyIsResult(doc: Option<Doc>, replies: seq<int>, warned: bool)
    requires doc.Some? ==> WellSpanned(doc.value.src, doc.value.toks) && doc.value.len == |doc.value.toks|
    ensures var o := Translate(doc, replies, warned);
            |o.calls| > 0 && Reply(replies, |o.calls| - 1) != 0 ==> o.err == Reply(replies, |o.calls| - 1)
  {
    if doc.Some? && |doc.value.toks| > 0 && doc.value.toks[0].kind == Array {
      VisitorCallsBeforeEnd(doc.value);
      ObjectsNonZeroReply(doc.value, Visitor(doc.value), replies, 0, 1, -EIO, [], warned);
    }
  }

  /** A non-zero callback result stops the loop: no call follows the first non-zero
      reply, so objects after that one are never visited. */
  lemma StopsAfterNonZeroReply(doc: Option<Doc>, replies: seq<int>, warned: bool, k: nat)
    requires doc.Some? ==> WellSpanned(doc.value.src, doc.value.toks)
    requires k < |replies| && replies[k] != 0
    ensures |Translate(doc, replies, warned).calls| <= k + 1
  {
    if doc.Some? && |doc.value.toks| > 0 && doc.value.toks[0].kind == Array {
      ObjectsCalls(doc.value, Visitor(doc.value), replies, 0, 1, -EIO, [], warned);
    }
    assert Reply(replies, k) == replies[k];
  }

  /** The callback runs at most once per element of the top-level array, and not at all
      when the document did not parse or its first token is not an array. */
  lemma AtMostOneCallPerObject(doc: Option<Doc>, replies: seq<int>, warned: bool)
    requires doc.Some? ==> WellSpanned(doc.value.src, doc.value.toks)
    ensures var o := Translate(doc, replies, warned);
            if doc.Some? && |doc.value.toks| > 0 && doc.value.toks[0].kind == Array
            then |o.calls| <= doc.value.toks[0].size
            else o.calls == [] && o.err == -EIO
  {
    if doc.Some? && |doc.value.toks| > 0 && doc.value.toks[0].kind == Array {
      ObjectsCalls(doc.value, Visitor(doc.value), replies, 0, 1, -EIO, [], warned);
    }
  }

  /** Every name handed to the callback has been lower-cased. */
  lemma NamesAreLowerCase(doc: Option<Doc>, replies: seq<int>, warned: bool)
    requires doc.Some? ==> WellSpanned(doc.value.src, doc.value.toks)
    ensures forall k :: 0 <= k < |Translate(doc, replies, warned).calls| ==>
                       IsLower(Translate(doc, replies, warned).calls[k].name)
  {
    if doc.Some? && |doc.value.toks| > 0 && doc.value.toks[0].kind == Array {
      var d := doc.value;
      VisitorLowerNames(d);
      ObjectsLowerNames(d, Visitor(d), replies, 0, 1, -EIO, [], warned);
      assert Translate(doc, replies, warned) == Objects(d, Visitor(d), replies, 0, 1, -EIO, [], warned);
    }
  }
}
