/** json_events and lookup_msr as imperative code over the process-wide state of
    jevents.c, which is the `static bool warned` of lookup_msr.  A Translator object
    stands for that state; it lives across calls to JsonEvents as the static does. */
module Events {
  import opened Wrappers
  import opened Json
  import opened CText
  import opened Tables
  import opened Rules
  import opened Traversal

  /** How one pass of json_events' loop ends. */
  datatype Exit = Next | Break | Return

  class Translator {
    /** The warn-once latch of lookup_msr. */
    var warned: bool
    /** How many "Unknown MSR" diagnostics have been written to stderr. */
    var warnings: nat

    /** The diagnostic has been written exactly when the latch is set, so at most once. */
    ghost predicate Valid()
      reads this
    {
      warnings == if warned then 1 else 0
    }

    /** Program start: the static is zero-initialised. */
    constructor ()
      ensures Valid() && !warned
    {
      warned, warnings := false, 0;
    }

    /** lookup_msr: the `msrmap` row whose index equals the comma-cut value, or NULL; a
        miss sets the latch, and writes the diagnostic only if the latch was clear. */
    method LookupMsr(src: string, val: Token) returns (m: Option<Entry>)
      requires Valid() && Spans(src, val)
      modifies this
      ensures Valid()
      ensures m == MsrLookup(src, val)
      ensures warned == (old(warned) || m.None?)
      ensures warnings == old(warnings) + (if m.None? && !old(warned) then 1 else 0)
    {
      var newval := CutComma(src, val);
      var i := 0;
      while i < |MsrTable|
        invariant 0 <= i <= |MsrTable|
        invariant forall k :: 0 <= k < i ==> MsrTable[k].key != Text(src, newval)
      {
        if StrEq(src, newval, MsrTable[i].key) {
          FindFirst(MsrTable, Text(src, newval), i);
          return Some(MsrTable[i]);
        }
        i := i + 1;
      }
      FindAbsent(MsrTable, Text(src, newval));
      if !warned {
        warned := true;
        warnings := warnings + 1;
      }
      return None;
    }

    /** One pass of the body of the field loop: the rule chain for one key/value pair.
        The first rule that applies wins; an unknown field changes nothing. */
    method ApplyRule(src: string, field: Token, val: Token, name: CStr, event: CStr, desc: CStr,
                     msr: Option<Entry>, msrval: Option<Token>, precise: Option<Token>)
      returns (msr': Option<Entry>, msrval': Option<Token>, precise': Option<Token>, ghost missed: bool)
      requires Valid() && Spans(src, field) && Spans(src, val)
      requires SlotsSpanned(src, Slots(name.value, event.value, desc.value, msr, msrval, precise))
      requires name != event && name != desc && event != desc
      modifies this, name, event, desc
      ensures Valid() && warned == (old(warned) || missed)
      ensures Step(Slots(name.value, event.value, desc.value, msr', msrval', precise'), missed) ==
              FieldStep(src, field, val, old(Slots(name.value, event.value, desc.value, msr, msrval, precise)))
    {
      missed := false;
      msr', msrval', precise' := msr, msrval, precise;
      var nz := !StrEq(src, val, "0");
      var matched := MatchField(src, field, nz, event, val);
      if matched {
        // the field table wins
      } else if StrEq(src, field, "EventName") {
        name.AddField(src, "", "", Some(val));
      } else if StrEq(src, field, "BriefDescription") {
        desc.AddField(src, "", "", Some(val));
        desc.FixDesc();
      } else if StrEq(src, field, "PEBS") && nz &&
                !Contains(Contents(desc.value), "(Precise Event)") {
        precise' := Some(val);
      } else if StrEq(src, field, "MSRIndex") && nz {
        msr' := LookupMsr(src, val);
        missed := msr'.None?;
      } else if StrEq(src, field, "MSRValue") {
        msrval' := Some(val);
      } else if StrEq(src, field, "Errata") && !StrEq(src, val, "null") {
        desc.AddField(src, ". ", " Spec update: ", Some(val));
      } else if StrEq(src, field, "Data_LA") && nz {
        desc.AddField(src, ". ", " Supports address when precise", None);
      }
      // unknown fields are ignored
    }

    /** The deferred part of one object: the PEBS note, then the MSR clause. */
    method FinaliseRecord(src: string, event: CStr, desc: CStr,
                          msr: Option<Entry>, msrval: Option<Token>, precise: Option<Token>)
      requires SlotsSpanned(src, Slots(None, event.value, desc.value, msr, msrval, precise))
      requires event != desc
      modifies event, desc
      ensures Slots(None, event.value, desc.value, msr, msrval, precise) ==
              Finalise(src, old(Slots(None, event.value, desc.value, msr, msrval, precise)))
    {
      if precise.Some? {
        if StrEq(src, precise.value, "2") {
          desc.AddField(src, " ", "(Must be precise)", None);
        } else {
          desc.AddField(src, " ", "(Precise event)", None);
        }
      }
      if msr.Some? {
        event.AddField(src, ",", msr.value.prefix, msrval);
      }
    }

    /** The field loop of one object, for (j = 0; j < obj->size; j += 2), over the pairs
        that start at token `base`; `ok` is false when a structural check failed. */
    method ScanObject(src: string, tokens: seq<Token>, base: nat, size: nat,
                      name: CStr, event: CStr, desc: CStr)
      returns (ok: bool, j: nat, msr: Option<Entry>, msrval: Option<Token>, precise: Option<Token>,
               ghost missed: bool)
      requires Valid() && WellSpanned(src, tokens)
      requires name.value.None? && event.value.None? && desc.value.None?
      requires name != event && name != desc && event != desc
      modifies this, name, event, desc
      ensures Valid() && warned == (old(warned) || missed)
      ensures ScanFields(src, tokens, base, size, 0, Blank, false) ==
              if ok then Scanned(Slots(name.value, event.value, desc.value, msr, msrval, precise), missed, j)
              else Broken(missed)
    {
      msr, msrval, precise, missed := None, None, None, false;
      ghost var scan := ScanFields(src, tokens, base, size, 0, Blank, false);
      ghost var w0 := warned;
      j := 0;
      while j < size
        invariant Valid() && warned == (w0 || missed)
        invariant SlotsSpanned(src, Slots(name.value, event.value, desc.value, msr, msrval, precise))
        invariant ScanFields(src, tokens, base, size, j,
                             Slots(name.value, event.value, desc.value, msr, msrval, precise),
                             missed) == scan
      {
        if base + j >= |tokens| || tokens[base + j].kind != String {
          return false, j, msr, msrval, precise, missed;
        }
        if base + j + 1 >= |tokens| || tokens[base + j + 1].kind != String {
          return false, j, msr, msrval, precise, missed;
        }
        var field, val := tokens[base + j], tokens[base + j + 1];
        assert field in tokens && val in tokens;
        ghost var m;
        msr, msrval, precise, m := ApplyRule(src, field, val, name, event, desc, msr, msrval, precise);
        missed := missed || m;
        j := j + 2;
      }
      ok := true;
    }

    /** One pass of the object loop, for the object whose fields start at token `base`:
        scan its pairs, apply the deferred rules, and call back when both name and event
        are set, after lower-casing the name.  `ok` is false when a structural check
        failed; otherwise `err` is the callback's result, or -EIO when no call was made. */
    method ReadObject(src: string, tokens: seq<Token>, base: nat, size: nat,
                      replies: seq<int>, calls: seq<Call>, ghost v: Visit)
      returns (ok: bool, j: nat, err: int, calls': seq<Call>)
      requires Valid() && WellSpanned(src, tokens)
      requires v == VisitObject(src, tokens, base, size)
      modifies this
      ensures Valid()
      ensures match v
              case Malformed(m) => !ok && calls' == calls && warned == (old(warned) || m)
              case Visited(c, m, j') =>
                ok && j == j' && warned == (old(warned) || m) &&
                (c.None? ==> err == -EIO && calls' == calls) &&
                (c.Some? ==> err == Reply(replies, |calls|) && calls' == calls + [c.value])
    {
      var name := new CStr();
      var event := new CStr();
      var desc := new CStr();
      var msr, msrval, precise;
      ghost var missed;
      ok, j, msr, msrval, precise, missed := ScanObject(src, tokens, base, size, name, event, desc);
      calls' := calls;
      err := -EIO;
      if !ok {
        return;
      }
      FinaliseRecord(src, event, desc, msr, msrval, precise);
      if name.value.Some? && event.value.Some? {
        name.FixName();
        err := Reply(replies, |calls|);
        calls' := calls + [Call(name.value.value, event.value.value, desc.value)];
      }
    }

    /** One pass of json_events' loop over the top-level array: reads the object at
        token tok and reports whether the loop goes on (Next), leaves through the
        closing cursor check (Break) or returns err as it stands (Return). */
    method NextObject(d: Doc, ghost visit: nat -> Visit, replies: seq<int>, i: nat, tok: nat, err: int,
                      calls: seq<Call>)
      returns (exit: Exit, tok': nat, err': int, calls': seq<Call>)
      requires Valid() && WellSpanned(d.src, d.toks)
      requires |d.toks| > 0 && i < d.toks[0].size
      requires tok < |d.toks| ==> visit(tok) == VisitObject(d.src, d.toks, tok + 1, d.toks[tok].size)
      modifies this
      ensures Valid()
      ensures var before := Objects(d, visit, replies, i, tok, err, calls, old(warned));
              match exit
              case Next => before == Objects(d, visit, replies, i + 1, tok', err', calls', warned)
              case Break => before == CursorCheck(d, tok', err', calls', warned)
              case Return => before == Outcome(err', calls', warned)
    {
      var tokens := d.toks;
      if tok >= |tokens| || tokens[tok].kind != Object {
        return Return, tok, err, calls;
      }
      ghost var v := visit(tok);
      ObjectsAtObject(d, visit, replies, i, tok, err, calls, old(warned));
      var ok, j, result;
      ok, j, result, calls' := ReadObject(d.src, tokens, tok + 1, tokens[tok].size, replies, calls, v);
      if !ok {
        assert v.Malformed?;
        return Return, tok + 1, err, calls';
      }
      assert v.Visited? && v.j == j;
      err' := result;
      if err' != 0 {
        return Break, tok + 1, err', calls';
      }
      assert v.call.Some? && err' == Reply(replies, |calls|);
      exit, tok' := Next, tok + 1 + j;
    }

    /** json_events on the result of parse_json (None when it failed) with a callback
        that answers the k-th call with replies[k].  Returns the result code and the
        calls made, in order; the latch carries over to later calls. */
    method JsonEvents(doc: Option<Doc>, replies: seq<int>) returns (err: int, calls: seq<Call>)
      requires Valid()
      requires doc.Some? ==> WellSpanned(doc.value.src, doc.value.toks)
      modifies this
      ensures Valid()
      ensures Outcome(err, calls, warned) == Translate(doc, replies, old(warned))
    {
      calls := [];
      if doc.None? {
        return -EIO, calls;
      }
      var d := doc.value;
      var src, tokens, len := d.src, d.toks, d.len;
      err := -EIO;
      if |tokens| == 0 || tokens[0].kind != Array {
        return;
      }
      ghost var target := Objects(d, Visitor(d), replies, 0, 1, -EIO, [], warned);
      var tok := 1;
      var i := 0;
      while i < tokens[0].size
        invariant Valid()
        invariant 0 <= i <= tokens[0].size
        invariant Objects(d, Visitor(d), replies, i, tok, err, calls, warned) == target
      {
        var exit;
        exit, tok, err, calls := NextObject(d, Visitor(d), replies, i, tok, err, calls);
        if exit == Return {
          return;
        } else if exit == Break {
          break;
        }
        i := i + 1;
      }
      if tok != len {
        return;
      }
      err := 0;
    }
  }
}
