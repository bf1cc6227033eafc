/** The object/field traversal of json_events as a pure specification.  It follows the
    source's cursor arithmetic exactly: `tok` indexes the token array, a structural
    failure jumps to the exit with the current `err`, and after the object loop (ended
    normally or by `break`) the cursor is compared with the token count. */
module Traversal {
  import opened Wrappers
  import opened Json
  import opened CText
  import opened Tables
  import opened Rules

  /** EIO from errno.h on Linux. */
  const EIO := 5

  /** One callback invocation: the lower-cased name, the event and the description
      (NULL when no field wrote one). */
  datatype Call = Call(name: string, event: string, desc: Option<string>)

  /** The field loop of one object either consumes its pairs (ending with the loop
      index `j`) or stops at a token that is missing or not a string; `missed` records
      whether an MSR lookup missed on the way. */
  datatype Scan = Scanned(slots: Slots, missed: bool, j: nat) | Broken(missed: bool)

  /** What json_events returns, the calls it made, and the `warned` latch afterwards. */
  datatype Outcome = Outcome(err: int, calls: seq<Call>, warned: bool)

  /** The callback is a fixed script of return codes: call number k returns replies[k],
      and 0 once the script is exhausted. */
  function Reply(replies: seq<int>, k: nat): int
  {
    if k < |replies| then replies[k] else 0
  }

  /** The pair at token p is there and both of its tokens are strings. */
  predicate PairOk(toks: seq<Token>, p: int)
  {
    0 <= p && p + 1 < |toks| && toks[p].kind == String && toks[p + 1].kind == String
  }

  /** Where the field loop stops once it has started at j < size: the first even j at
      or past obj->size, so an odd size is rounded up. */
  function LoopEnd(size: nat, j: nat): nat
  {
    if j >= size then j else j + 2 * ((size - j + 1) / 2)
  }

  /** for (j = 0; j < obj->size; j += 2) over the pairs starting at token `base`.  A
      token index past the end of the array is treated like a kind mismatch.  The loop
      fails exactly when one of the pairs it reaches is not two strings; otherwise it
      ends at LoopEnd. */
  function ScanFields(src: string, toks: seq<Token>, base: nat, size: nat, j: nat,
                      s: Slots, missed: bool): (r: Scan)
    requires WellSpanned(src, toks) && SlotsSpanned(src, s)
    ensures r.Scanned? ==> SlotsSpanned(src, r.slots) && r.j >= size && r.j >= j
    ensures r.Scanned? ==> r.j == LoopEnd(size, j)
    ensures r.Broken? <==> exists p :: base + j <= p < base + size && (p - base - j) % 2 == 0 && !PairOk(toks, p)
    ensures missed ==> r.missed
    decreases size - j, 1
  {
    if j >= size then Scanned(s, missed, j)
    else if !PairOk(toks, base + j) then
      assert (base + j - base - j) % 2 == 0;
      Broken(missed)
    else ScanPair(src, toks, base, size, j, s, missed)
  }

  /** The body of the field loop for the pair at j, once both of its tokens are known
      to be strings: apply the rule chain, then go on with the next pair. */
  function ScanPair(src: string, toks: seq<Token>, base: nat, size: nat, j: nat,
                    s: Slots, missed: bool): (r: Scan)
    requires WellSpanned(src, toks) && SlotsSpanned(src, s)
    requires j < size && base + j + 1 < |toks|
    ensures r.Scanned? ==> SlotsSpanned(src, r.slots) && r.j >= size && r.j >= j
    ensures r.Scanned? ==> r.j == LoopEnd(size, j)
    ensures r.Broken? <==> exists p :: base + j + 2 <= p < base + size && (p - base - j) % 2 == 0 && !PairOk(toks, p)
    ensures missed ==> r.missed
    decreases size - j, 0
  {
    var st := FieldStep(src, toks[base + j], toks[base + j + 1], s);
    ScanFields(src, toks, base, size, j + 2, st.slots, missed || st.missed)
  }

  /** What one pass of the object loop finds in an object: a structural failure inside
      it, or the call it asks for (None when name or event is NULL), with the final
      field-loop index `j`; either way whether an MSR lookup missed. */
  datatype Visit = Malformed(missed: bool) | Visited(call: Option<Call>, missed: bool, j: nat)

  /** One object whose pairs start at token `base`: scan them, apply the deferred
      rules, and ask for a call (name lower-cased) when both name and event are set. */
  function VisitObject(src: string, toks: seq<Token>, base: nat, size: nat): (v: Visit)
    requires WellSpanned(src, toks)
    ensures v.Visited? && v.call.Some? ==> IsLower(v.call.value.name)
  {
    match ScanFields(src, toks, base, size, 0, Blank, false)
    case Broken(m) => Malformed(m)
    case Scanned(s, m, j) =>
      var f := Finalise(src, s);
      if f.name.Some? && f.event.Some? then
        Visited(Some(Call(Lowered(f.name.value), f.event.value, f.desc)), m, j)
      else
        Visited(None, m, j)
  }

  /** The visit of the object token at index `t` (its pairs start at t + 1). */
  function Visitor(d: Doc): (nat -> Visit)
    requires WellSpanned(d.src, d.toks)
  {
    (t: nat) => if t < |d.toks| then VisitObject(d.src, d.toks, t + 1, d.toks[t].size) else Malformed(false)
  }

  /** The check after the object loop: a cursor that does not equal the token count
      returns the current `err`, otherwise the result is 0. */
  function CursorCheck(d: Doc, tok: nat, err: int, calls: seq<Call>, warned: bool): Outcome
  {
    Outcome(if tok == d.len then 0 else err, calls, warned)
  }

  /** The object loop from object `i` on, with cursor `tok`, current `err`, the calls
      made so far and the latch; `visit` gives what each object token yields.  A
      missing name or event sets `err` to -EIO, and a non-zero `err` after an object
      breaks the loop before the cursor moves past the object's fields. */
  function Objects(d: Doc, visit: nat -> Visit, replies: seq<int>, i: nat, tok: nat, err: int,
                   calls: seq<Call>, warned: bool): (o: Outcome)
    requires |d.toks| > 0
    ensures calls <= o.calls
    ensures warned ==> o.warned
    decreases d.toks[0].size - i
  {
    if i >= d.toks[0].size then CursorCheck(d, tok, err, calls, warned)
    else if tok >= |d.toks| || d.toks[tok].kind != Object then Outcome(err, calls, warned)
    else match visit(tok)
      case Malformed(m) => Outcome(err, calls, warned || m)
      case Visited(None, m, j) => CursorCheck(d, tok + 1, -EIO, calls, warned || m)
      case Visited(Some(c), m, j) =>
        var e := Reply(replies, |calls|);
        if e != 0 then CursorCheck(d, tok + 1, e, calls + [c], warned || m)
        else Objects(d, visit, replies, i + 1, tok + 1 + j, e, calls + [c], warned || m)
  }

  /** One object of the loop, for any visitor: what Objects does once the object at
      tok has been visited. */
  lemma ObjectsAtObject(d: Doc, visit: nat -> Visit, replies: seq<int>, i: nat, tok: nat, err: int,
                        calls: seq<Call>, warned: bool)
    requires |d.toks| > 0 && i < d.toks[0].size && tok < |d.toks| && d.toks[tok].kind == Object
    ensures var o := Objects(d, visit, replies, i, tok, err, calls, warned);
            match visit(tok)
            case Malformed(m) => o == Outcome(err, calls, warned || m)
            case Visited(None, m, j) => o == CursorCheck(d, tok + 1, -EIO, calls, warned || m)
            case Visited(Some(c), m, j) =>
              var e := Reply(replies, |calls|);
              o == if e != 0 then CursorCheck(d, tok + 1, e, calls + [c], warned || m)
                   else Objects(d, visit, replies, i + 1, tok + 1 + j, 0, calls + [c], warned || m)
  {
  }

  /** json_events on a parse result (None when parse_json failed), a callback script
      and the latch as it was before the call. */
  function Translate(doc: Option<Doc>, replies: seq<int>, warned: bool): (o: Outcome)
    requires doc.Some? ==> WellSpanned(doc.value.src, doc.value.toks)
    ensures !(doc.Some? && |doc.value.toks| > 0 && doc.value.toks[0].kind == Array) ==>
            o == Outcome(-EIO, [], warned)
    ensures warned ==> o.warned
  {
    if doc.None? then Outcome(-EIO, [], warned)
    else if |doc.value.toks| == 0 || doc.value.toks[0].kind != Array then Outcome(-EIO, [], warned)
    else Objects(doc.value, Visitor(doc.value), replies, 0, 1, -EIO, [], warned)
  }
}
