/** The two fixed lookup tables of jevents.c and the helpers that consult them:
    `fields` (JSON field name to kernel event-syntax prefix) with match_field, and
    `msrmap` (MSR index to prefix), plus cut_comma, which both use to keep only the
    part of a value before its first comma. */
module Tables {
  import opened Wrappers
  import opened Json
  import opened CText

  /** A table row: the literal looked up and the prefix it stands for. */
  datatype Entry = Entry(key: string, prefix: string)

  /** `fields`, in source order (the NULL sentinel row is the end of the sequence). */
  const FieldTable: seq<Entry> := [
    Entry("EventCode", "event="),
    Entry("UMask", "umask="),
    Entry("CounterMask", "cmask="),
    Entry("Invert", "inv="),
    Entry("AnyThread", "any="),
    Entry("EdgeDetect", "edge="),
    Entry("SampleAfterValue", "period=")
  ]

  /** `msrmap`, in source order.  The keys are compared exactly, so "0x3f6" is not "0x3F6". */
  const MsrTable: seq<Entry> := [
    Entry("0x3F6", "ldlat="),
    Entry("0x1A6", "offcore_rsp="),
    Entry("0x1A7", "offcore_rsp=")
  ]

  /** The index of the first row whose key is `key`, as a linear scan finds it. */
  function Find(table: seq<Entry>, key: string): (r: Option<nat>)
    ensures r.Some? ==> r.value < |table| && table[r.value].key == key
    ensures r.Some? ==> forall k :: 0 <= k < r.value ==> table[k].key != key
    ensures r.None? ==> forall k :: 0 <= k < |table| ==> table[k].key != key
  {
    if table == [] then None
    else if table[0].key == key then Some(0)
    else match Find(table[1..], key)
      case None => None
      case Some(k) => Some(k + 1)
  }

  /** Find returns the first row whose key matches: once row k matches and no row
      before it does, the search stops at k. */
  lemma {:induction false} FindFirst(table: seq<Entry>, key: string, k: nat)
    requires k < |table| && table[k].key == key
    requires forall m :: 0 <= m < k ==> table[m].key != key
    ensures Find(table, key) == Some(k)
    decreases k
  {
    if k > 0 {
      FindFirst(table[1..], key, k - 1);
    }
  }

  /** Find reports no row exactly when no row's key matches. */
  lemma {:induction false} FindAbsent(table: seq<Entry>, key: string)
    requires forall m :: 0 <= m < |table| ==> table[m].key != key
    ensures Find(table, key) == None
    decreases |table|
  {
    if table != [] {
      FindAbsent(table[1..], key);
    }
  }

  /** The kernel prefix `fields` gives a field name, if it lists the name. */
  function KernelPrefix(name: string): (r: Option<string>)
    ensures r.Some? ==> exists k :: 0 <= k < |FieldTable| && FieldTable[k] == Entry(name, r.value)
    ensures r.None? ==> forall k :: 0 <= k < |FieldTable| ==> FieldTable[k].key != name
  {
    match Find(FieldTable, name)
    case None => None
    case Some(k) => Some(FieldTable[k].prefix)
  }

  /** The end of the range [start, end) once it is cut at its first comma. */
  function CommaCut(src: string, start: nat, end: nat): (r: nat)
    requires start <= end <= |src|
    ensures start <= r <= end
    ensures forall k :: start <= k < r ==> src[k] != ','
    ensures r < end ==> src[r] == ','
    decreases end - start
  {
    if start == end then end
    else if src[start] == ',' then start
    else CommaCut(src, start + 1, end)
  }

  /** The text of a value token up to (not including) its first comma. */
  function CutText(src: string, t: Token): string
    requires Spans(src, t)
  {
    src[t.start..CommaCut(src, t.start, t.end)]
  }

  /** The MSR table row whose index equals the comma-cut value, if there is one. */
  function MsrLookup(src: string, val: Token): (r: Option<Entry>)
    requires Spans(src, val)
    ensures r.Some? ==> r.value in MsrTable && r.value.key == CutText(src, val)
    ensures r.None? ==> forall k :: 0 <= k < |MsrTable| ==> MsrTable[k].key != CutText(src, val)
  {
    match Find(MsrTable, CutText(src, val))
    case None => None
    case Some(k) => Some(MsrTable[k])
  }

  /** cut_comma: scan the token's range and move its end to each comma found; since
      the scan bound is that end, the first comma is where it stops.  The start, kind
      and size are untouched and the end never grows. */
  method CutComma(src: string, t: Token) returns (r: Token)
    requires Spans(src, t)
    ensures r.kind == t.kind && r.start == t.start && r.size == t.size
    ensures r.end <= t.end
    ensures forall k :: t.start <= k < r.end ==> src[k] != ','
    ensures r.end == t.end || src[r.end] == ','
    ensures r.end == CommaCut(src, t.start, t.end)
  {
    r := t;
    var i := t.start;
    while i < r.end
      invariant r.kind == t.kind && r.start == t.start && r.size == t.size
      invariant t.start <= r.end <= t.end && t.start <= i
      invariant forall k :: t.start <= k < i && k < r.end ==> src[k] != ','
      invariant r.end < t.end ==> src[r.end] == ',' && i == r.end + 1
      invariant r.end == t.end ==> i <= t.end
    {
      if src[i] == ',' {
        r := r.(end := i);
      }
      i := i + 1;
    }
  }

  /** match_field: for a field that `fields` lists, and only when its value is not the
      literal "0" (`nz`), append ",<prefix><value up to its first comma>" to the event
      and report a match; otherwise leave the event alone. */
  method MatchField(src: string, field: Token, nz: bool, event: CStr, val: Token)
    returns (matched: bool)
    requires Spans(src, field) && Spans(src, val)
    modifies event
    ensures matched == (nz && KernelPrefix(Text(src, field)).Some?)
    ensures matched ==> event.value == Some(Appended(old(event.value), ",",
                                          KernelPrefix(Text(src, field)).value, CutText(src, val)))
    ensures !matched ==> event.value == old(event.value)
  {
    var newval := val;
    var k := 0;
    while k < |FieldTable|
      invariant 0 <= k <= |FieldTable|
      invariant nz ==> forall m :: 0 <= m < k ==> FieldTable[m].key != Text(src, field)
      invariant event.value == old(event.value)
    {
      if StrEq(src, field, FieldTable[k].key) && nz {
        FindFirst(FieldTable, Text(src, field), k);
        newval := CutComma(src, newval);
        event.AddField(src, ",", FieldTable[k].prefix, Some(newval));
        return true;
      }
      k := k + 1;
    }
    if nz {
      FindAbsent(FieldTable, Text(src, field));
    }
    return false;
  }
}
