/** Properties of the per-field rule chain and of the deferred finalisation. */
module RuleProperties {
  import opened Wrappers
  import opened Json
  import opened CText
  import opened Tables
  import opened Rules

  /** The names the rules after the table test look for. */
  predicate NamedField(key: string)
  {
    key in {"EventName", "BriefDescription", "PEBS", "MSRIndex", "MSRValue", "Errata", "Data_LA"}
  }

  /** No table field shares its name with a later rule, so the table's zero gate is the
      only test a table field meets. */
  lemma TableNamesAreNotNamedFields(key: string)
    requires KernelPrefix(key).Some?
    ensures !NamedField(key)
  {
  }

  /** A table field with a value other than "0" appends ",<prefix><value before its
      first comma>" to the event and changes nothing else. */
  lemma TableFieldRule(src: string, field: Token, val: Token, s: Slots)
    requires Spans(src, field) && Spans(src, val) && SlotsSpanned(src, s)
    requires KernelPrefix(Text(src, field)).Some? && !StrEq(src, val, "0")
    ensures FieldStep(src, field, val, s) ==
            Step(s.(event := Some(Appended(s.event, ",", KernelPrefix(Text(src, field)).value,
                                           CutText(src, val)))), false)
  {
  }

  /** A table field whose value is the literal "0" changes nothing at all. */
  lemma ZeroTableFieldIgnored(src: string, field: Token, val: Token, s: Slots)
    requires Spans(src, field) && Spans(src, val) && SlotsSpanned(src, s)
    requires KernelPrefix(Text(src, field)).Some? && StrEq(src, val, "0")
    ensures FieldStep(src, field, val, s) == Step(s, false)
  {
    TableNamesAreNotNamedFields(Text(src, field));
  }

  /** A field no rule knows changes nothing. */
  lemma UnknownFieldIgnored(src: string, field: Token, val: Token, s: Slots)
    requires Spans(src, field) && Spans(src, val) && SlotsSpanned(src, s)
    requires KernelPrefix(Text(src, field)).None? && !NamedField(Text(src, field))
    ensures FieldStep(src, field, val, s) == Step(s, false)
  {
  }

  /** Only the literal "0" is zero: UMask "0x0" is encoded as ",umask=0x0". */
  lemma HexZeroIsEncoded(s: Slots)
    requires SlotsSpanned("UMask0x0", s)
    ensures FieldStep("UMask0x0", Token(String, 0, 5, 0), Token(String, 5, 8, 0), s).slots.event ==
            Some(Appended(s.event, ",", "umask=", "0x0"))
  {
    var src, val := "UMask0x0", Token(String, 5, 8, 0);
    assert Text(src, Token(String, 0, 5, 0)) == "UMask";
    assert Text(src, val) == "0x0";
    assert Find(FieldTable[1..], "UMask") == Some(0);
    assert KernelPrefix("UMask") == Some("umask=");
    assert src[5] != ',' && src[6] != ',' && src[7] != ',';
    assert CommaCut(src, 5, 8) == 8;
  }

  /** The zero test sees the whole value and the comma cut comes after it: EventCode
      "0,1" is not zero and is encoded as "event=0". */
  lemma ZeroTestBeforeCommaCut()
    ensures FieldStep("EventCode0,1", Token(String, 0, 9, 0), Token(String, 9, 12, 0), Blank).slots.event ==
            Some("event=0")
  {
    var src, val := "EventCode0,1", Token(String, 9, 12, 0);
    assert Text(src, Token(String, 0, 9, 0)) == "EventCode";
    assert Text(src, val) == "0,1";
    assert KernelPrefix("EventCode") == Some("event=");
    assert src[9] != ',' && src[10] == ',';
    assert CommaCut(src, 9, 12) == 10;
    assert CutText(src, val) == "0";
    assert Appended(None, ",", "event=", "0") == "event=" + "0" == "event=0";
  }

  /** EventName appends its value to the name with no separator. */
  lemma EventNameRule(src: string, field: Token, val: Token, s: Slots)
    requires Spans(src, field) && Spans(src, val) && SlotsSpanned(src, s)
    requires Text(src, field) == "EventName"
    ensures FieldStep(src, field, val, s) ==
            Step(s.(name := Some(Contents(s.name) + Text(src, val))), false)
  {
    assert KernelPrefix("EventName").None?;
    assert Contents(s.name) + "" + "" + Text(src, val) == Contents(s.name) + Text(src, val);
    assert "" + Text(src, val) == Text(src, val);
  }

  /** BriefDescription appends its value to the description with no separator and then
      normalises the whole description with fixdesc. */
  lemma BriefDescriptionRule(src: string, field: Token, val: Token, s: Slots)
    requires Spans(src, field) && Spans(src, val) && SlotsSpanned(src, s)
    requires Text(src, field) == "BriefDescription"
    ensures FieldStep(src, field, val, s) ==
            Step(s.(desc := Some(FixedDesc(Contents(s.desc) + Text(src, val)))), false)
  {
    assert KernelPrefix("BriefDescription").None?;
    assert Contents(s.desc) + "" + "" + Text(src, val) == Contents(s.desc) + Text(src, val);
    assert "" + Text(src, val) == Text(src, val);
  }

  /** A non-zero PEBS value is kept for later unless the description already holds
      "(Precise Event)" (capital E); otherwise the field is ignored. */
  lemma PebsRule(src: string, field: Token, val: Token, s: Slots)
    requires Spans(src, field) && Spans(src, val) && SlotsSpanned(src, s)
    requires Text(src, field) == "PEBS"
    ensures !StrEq(src, val, "0") && !Contains(Contents(s.desc), "(Precise Event)") ==>
            FieldStep(src, field, val, s) == Step(s.(precise := Some(val)), false)
    ensures StrEq(src, val, "0") || Contains(Contents(s.desc), "(Precise Event)") ==>
            FieldStep(src, field, val, s) == Step(s, false)
  {
  }

  /** A non-zero MSRIndex replaces the resolved MSR row (with NULL on a miss, which the
      step reports as a missed lookup); a zero one is ignored. */
  lemma MsrIndexRule(src: string, field: Token, val: Token, s: Slots)
    requires Spans(src, field) && Spans(src, val) && SlotsSpanned(src, s)
    requires Text(src, field) == "MSRIndex"
    ensures !StrEq(src, val, "0") ==>
            FieldStep(src, field, val, s) ==
            Step(s.(msr := MsrLookup(src, val)), MsrLookup(src, val).None?)
    ensures StrEq(src, val, "0") ==> FieldStep(src, field, val, s) == Step(s, false)
  {
  }

  /** MSRValue is kept for later whatever its value, "0" included. */
  lemma MsrValueRule(src: string, field: Token, val: Token, s: Slots)
    requires Spans(src, field) && Spans(src, val) && SlotsSpanned(src, s)
    requires Text(src, field) == "MSRValue"
    ensures FieldStep(src, field, val, s) == Step(s.(msrval := Some(val)), false)
  {
  }

  /** Errata other than "null" appends " Spec update: <value>", after ". " when the
      description is non-empty, which leaves two spaces after the period. */
  lemma ErrataRule(src: string, field: Token, val: Token, s: Slots)
    requires Spans(src, field) && Spans(src, val) && SlotsSpanned(src, s)
    requires Text(src, field) == "Errata"
    ensures StrEq(src, val, "null") ==> FieldStep(src, field, val, s) == Step(s, false)
    ensures !StrEq(src, val, "null") && Contents(s.desc) == "" ==>
            FieldStep(src, field, val, s) ==
            Step(s.(desc := Some(" Spec update: " + Text(src, val))), false)
    ensures !StrEq(src, val, "null") && Contents(s.desc) != "" ==>
            FieldStep(src, field, val, s) ==
            Step(s.(desc := Some(Contents(s.desc) + ".  Spec update: " + Text(src, val))), false)
  {
    if !StrEq(src, val, "null") && Contents(s.desc) != "" {
      assert Contents(s.desc) + ". " + " Spec update: " + Text(src, val) ==
             Contents(s.desc) + ".  Spec update: " + Text(src, val);
    }
  }

  /** A non-zero Data_LA appends the fixed note, after ". " when the description is
      non-empty; its value text is not used. */
  lemma DataLaRule(src: string, field: Token, val: Token, s: Slots)
    requires Spans(src, field) && Spans(src, val) && SlotsSpanned(src, s)
    requires Text(src, field) == "Data_LA"
    ensures StrEq(src, val, "0") ==> FieldStep(src, field, val, s) == Step(s, false)
    ensures !StrEq(src, val, "0") ==>
            FieldStep(src, field, val, s) ==
            Step(s.(desc := Some(Appended(s.desc, ". ", " Supports address when precise", ""))), false)
  {
  }

  /** The deferred PEBS note: "(Must be precise)" for the value "2", "(Precise event)"
      for any other value, joined by a space to a non-empty description. */
  lemma PreciseNoteRule(src: string, s: Slots)
    requires SlotsSpanned(src, s) && s.precise.Some?
    ensures var note := if StrEq(src, s.precise.value, "2") then "(Must be precise)" else "(Precise event)";
            Finalise(src, s).desc == Some(if Contents(s.desc) == "" then note else Contents(s.desc) + " " + note)
  {
    var note := PreciseNote(src, s.precise.value);
    assert note + "" == note;
    assert Contents(s.desc) + " " + note + "" == Contents(s.desc) + " " + note;
  }

  /** The MSR clause <prefix><MSRValue text> comes last in the event, after a comma when
      the event is non-empty; without MSRValue it is the bare prefix. */
  lemma MsrClauseLast(src: string, s: Slots)
    requires SlotsSpanned(src, s) && s.msr.Some?
    ensures var clause := s.msr.value.prefix + (if s.msrval.Some? then Text(src, s.msrval.value) else "");
            Finalise(src, s).event ==
            Some(if Contents(s.event) == "" then clause else Contents(s.event) + "," + clause)
  {
    var text := OptText(src, s.msrval);
    assert Contents(s.event) + "," + s.msr.value.prefix + text ==
           Contents(s.event) + "," + (s.msr.value.prefix + text);
  }
}
