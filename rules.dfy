/** The per-object translation rules of json_events as a pure specification: the
    state of one event record, the rule chain applied to each key/value pair, and the
    deferred PEBS and MSR finalisation applied once the object's pairs are consumed. */
module Rules {
  import opened Wrappers
  import opened Json
  import opened CText
  import opened Tables

  /** The per-object locals of json_events: the three text buffers (None is NULL), the
      resolved MSR row, and the deferred MSRValue and PEBS value tokens. */
  datatype Slots = Slots(name: Option<string>, event: Option<string>, desc: Option<string>,
                         msr: Option<Entry>, msrval: Option<Token>, precise: Option<Token>)

  /** A record before its first field: every slot NULL. */
  const Blank := Slots(None, None, None, None, None, None)

  /** The deferred tokens lie inside the buffer. */
  predicate SlotsSpanned(src: string, s: Slots)
  {
    (s.msrval.Some? ==> Spans(src, s.msrval.value)) &&
    (s.precise.Some? ==> Spans(src, s.precise.value))
  }

  /** A record after one rule, and whether the rule was an MSR lookup that missed (which
      sets the warn-once latch of lookup_msr). */
  datatype Step = Step(slots: Slots, missed: bool)

  /** The rule chain for one key/value pair; the first rule that applies wins and an
      unknown field changes nothing.  Only the literal "0" counts as zero.  The PEBS
      rule's strstr on a NULL description is read as finding nothing. */
  function FieldStep(src: string, field: Token, val: Token, s: Slots): (r: Step)
    requires Spans(src, field) && Spans(src, val) && SlotsSpanned(src, s)
    ensures SlotsSpanned(src, r.slots)
    ensures r.missed == (Text(src, field) == "MSRIndex" && !StrEq(src, val, "0") &&
                         MsrLookup(src, val).None?)
  {
    var key := Text(src, field);
    var nz := !StrEq(src, val, "0");
    if nz && KernelPrefix(key).Some? then
      Step(s.(event := Some(Appended(s.event, ",", KernelPrefix(key).value, CutText(src, val)))), false)
    else if key == "EventName" then
      Step(s.(name := Some(Appended(s.name, "", "", Text(src, val)))), false)
    else if key == "BriefDescription" then
      Step(s.(desc := Some(FixedDesc(Appended(s.desc, "", "", Text(src, val))))), false)
    else if key == "PEBS" && nz && !Contains(Contents(s.desc), "(Precise Event)") then
      Step(s.(precise := Some(val)), false)
    else if key == "MSRIndex" && nz then
      var m := MsrLookup(src, val);
      Step(s.(msr := m), m.None?)
    else if key == "MSRValue" then
      Step(s.(msrval := Some(val)), false)
    else if key == "Errata" && !StrEq(src, val, "null") then
      Step(s.(desc := Some(Appended(s.desc, ". ", " Spec update: ", Text(src, val)))), false)
    else if key == "Data_LA" && nz then
      Step(s.(desc := Some(Appended(s.desc, ". ", " Supports address when precise", ""))), false)
    else
      Step(s, false)
  }

  /** The note a deferred PEBS value adds to the description. */
  function PreciseNote(src: string, precise: Token): (r: string)
    requires Spans(src, precise)
    ensures r == "(Must be precise)" || r == "(Precise event)"
    ensures r == "(Must be precise)" <==> Text(src, precise) == "2"
  {
    if StrEq(src, precise, "2") then "(Must be precise)" else "(Precise event)"
  }

  /** Deferred finalisation: the PEBS note joined to the description by a space, then the
      MSR clause <prefix><MSRValue text> joined to the event by a comma.  A missing
      MSRValue leaves the bare prefix. */
  function Finalise(src: string, s: Slots): (f: Slots)
    requires SlotsSpanned(src, s)
    ensures f.name == s.name && f.msr == s.msr && f.msrval == s.msrval && f.precise == s.precise
    ensures s.precise.None? ==> f.desc == s.desc
    ensures s.precise.Some? ==> f.desc.Some? && Contents(s.desc) <= f.desc.value
    ensures s.msr.None? ==> f.event == s.event
    ensures s.msr.Some? ==> f.event.Some? && Contents(s.event) <= f.event.value
  {
    var withNote :=
      if s.precise.Some? then s.(desc := Some(Appended(s.desc, " ", PreciseNote(src, s.precise.value), "")))
      else s;
    if withNote.msr.Some? then
      withNote.(event := Some(Appended(withNote.event, ",", withNote.msr.value.prefix, OptText(src, withNote.msrval))))
    else withNote
  }
}
