/** The C string handling of jevents.c: the growable, NULL-able text buffers that
    addfield builds and the in-place normalisers fixname and fixdesc.  Text is
    modelled as `string` (seq<char>) in the C locale: only ASCII letters change
    case and only the six ASCII white-space characters count as space. */
module CText {
  import opened Wrappers
  import opened Json

  /** The text a possibly-NULL buffer holds; NULL reads as the empty string. */
  function Contents(p: Option<string>): string
  {
    if p.Some? then p.value else ""
  }

  /** The text of a possibly-NULL token; a NULL token contributes nothing. */
  function OptText(src: string, bt: Option<Token>): string
    requires bt.Some? ==> Spans(src, bt.value)
  {
    if bt.Some? then Text(src, bt.value) else ""
  }

  /** The buffer addfield leaves behind: the old text, the separator only when the
      old text was non-empty, then `a`, then the token text. */
  function Appended(dst: Option<string>, sep: string, a: string, tail: string): (r: string)
    ensures Contents(dst) <= r
    ensures Contents(dst) == "" ==> r == a + tail
    ensures Contents(dst) != "" ==> r[|Contents(dst)|..] == sep + a + tail
  {
    var prev := Contents(dst);
    (if prev == "" then "" else prev + sep) + a + tail
  }

  /** strstr(s, sub) != NULL: `sub` occurs in `s` at some position. */
  predicate Contains(s: string, sub: string): (b: bool)
    ensures sub <= s ==> b
    ensures b ==> |sub| <= |s|
  {
    sub <= s || (s != [] && Contains(s[1..], sub))
  }

  /** isspace in the C locale. */
  predicate IsSpace(c: char)
  {
    c == ' ' || c == '\t' || c == '\n' || c == '\U{0B}' || c == '\U{0C}' || c == '\r'
  }

  predicate IsUpper(c: char)
  {
    'A' <= c <= 'Z'
  }

  /** No upper-case ASCII letter in s. */
  predicate IsLower(s: string)
  {
    forall k :: 0 <= k < |s| ==> !IsUpper(s[k])
  }

  /** tolower in the C locale. */
  function ToLower(c: char): char
  {
    if IsUpper(c) then (c as int + 32) as char else c
  }

  /** The string with every character passed through tolower. */
  function Lowered(s: string): (r: string)
    ensures |r| == |s|
    ensures forall k :: 0 <= k < |s| ==> r[k] == ToLower(s[k])
  {
    if s == [] then [] else Lowered(s[..|s| - 1]) + [ToLower(s[|s| - 1])]
  }

  /** Index of the last character that is not white space, or -1 when there is none. */
  function LastNonSpace(s: string): (e: int)
    ensures -1 <= e < |s|
    ensures e >= 0 ==> !IsSpace(s[e])
    ensures forall k :: e < k < |s| ==> IsSpace(s[k])
  {
    if s == [] then -1
    else if IsSpace(s[|s| - 1]) then LastNonSpace(s[..|s| - 1])
    else |s| - 1
  }

  /** `k` is the position of a period followed only by white space. */
  predicate TrailingPeriod(s: string, k: int)
  {
    0 <= k < |s| && s[k] == '.' && forall m :: k < m < |s| ==> IsSpace(s[m])
  }

  /** What fixdesc leaves: the string cut at its last non-space character when that
      character is a period (dropping the period and the white space after it), the
      string unchanged otherwise.  The source reads s[-1] when every character is
      white space; the model then leaves the string unchanged. */
  function FixedDesc(s: string): (r: string)
    ensures |r| <= |s| && r == s[..|r|]
    ensures r == s || TrailingPeriod(s, |r|)
  {
    var e := LastNonSpace(s);
    if e >= 0 && s[e] == '.' then s[..e] else s
  }

  /** A C `char *` that jevents.c grows with addfield: NULL or a NUL-terminated text. */
  class CStr {
    var value: Option<string>

    /** A pointer initialised to NULL. */
    constructor ()
      ensures value == None
    {
      value := None;
    }

    /** addfield: reallocate the buffer and append `sep` (only when the buffer already
        holds text), then `a`, then the text of `bt` when `bt` is not NULL. */
    method AddField(src: string, sep: string, a: string, bt: Option<Token>)
      requires bt.Some? ==> Spans(src, bt.value)
      modifies this
      ensures value == Some(Appended(old(value), sep, a, OptText(src, bt)))
    {
      var olen := if value.Some? then |value.value| else 0;
      var buf: string;
      if olen == 0 {
        buf := "";
      } else {
        buf := value.value + sep;
      }
      buf := buf + a;
      if bt.Some? {
        buf := buf + Text(src, bt.value);
      } else {
        assert buf + "" == buf;
      }
      assert olen == 0 <==> Contents(value) == "";
      value := Some(buf);
    }

    /** fixname: lower-case every character in place. */
    method FixName()
      requires value.Some?
      modifies this
      ensures value == Some(Lowered(old(value).value))
    {
      ghost var s := value.value;
      var i := 0;
      while i < |value.value|
        invariant value.Some? && |value.value| == |s|
        invariant 0 <= i <= |s|
        invariant forall k :: 0 <= k < i ==> value.value[k] == ToLower(s[k])
        invariant forall k :: i <= k < |s| ==> value.value[k] == s[k]
      {
        value := Some(value.value[i := ToLower(value.value[i])]);
        i := i + 1;
      }
      assert value.value == Lowered(s);
    }

    /** fixdesc: walk back over trailing white space; if the character reached is a
        period, terminate the string there. */
    method FixDesc()
      requires value.Some?
      modifies this
      ensures value == Some(FixedDesc(old(value).value))
    {
      var s := value.value;
      var e := |s| - 1;
      while e >= 0 && IsSpace(s[e])
        invariant -1 <= e < |s|
        invariant forall k :: e < k < |s| ==> IsSpace(s[k])
      {
        e := e - 1;
      }
      if e >= 0 && s[e] == '.' {
        value := Some(s[..e]);
      }
    }
  }
}
