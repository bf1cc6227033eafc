/** Properties of the string helpers of jevents.c: fixdesc, fixname and the strstr
    test of the PEBS rule. */
module TextProperties {
  import opened Wrappers
  import opened CText

  /** fixdesc cuts at a period that only white space follows, dropping that tail. */
  lemma FixDescCut(s: string, k: int)
    requires TrailingPeriod(s, k)
    ensures FixedDesc(s) == s[..k]
  {
  }

  /** Without such a period, fixdesc changes nothing. */
  lemma FixDescKeeps(s: string)
    requires forall k :: !TrailingPeriod(s, k)
    ensures FixedDesc(s) == s
  {
  }

  /** "Some text.  " becomes "Some text". */
  lemma FixDescExample()
    ensures FixedDesc("Some text.  ") == "Some text"
  {
    FixDescCut("Some text.  ", 9);
  }

  /** Trailing white space with no period before it stays, and so does a period that
      is followed by other text. */
  lemma FixDescKeepsExamples()
    ensures FixedDesc("Some text  ") == "Some text  "
    ensures FixedDesc("v1.2 x") == "v1.2 x"
  {
  }

  /** fixname leaves no upper-case letter, and applying it twice is applying it once. */
  lemma LoweredIsLower(s: string)
    ensures IsLower(Lowered(s))
    ensures Lowered(Lowered(s)) == Lowered(s)
  {
  }

  /** strstr finds `sub` wherever it starts: an occurrence at position i is found. */
  lemma {:induction false} ContainsAt(s: string, sub: string, i: nat)
    requires i <= |s| && sub <= s[i..]
    ensures Contains(s, sub)
    decreases i
  {
    if i > 0 {
      assert s[1..][i - 1..] == s[i..];
      ContainsAt(s[1..], sub, i - 1);
    }
  }

  /** And it finds nothing else: a reported occurrence has a position. */
  lemma {:induction false} ContainsHasPosition(s: string, sub: string)
    requires Contains(s, sub)
    ensures exists i :: 0 <= i <= |s| && sub <= s[i..]
    decreases |s|
  {
    if sub <= s {
      assert s[0..] == s;
    } else {
      ContainsHasPosition(s[1..], sub);
      var i :| 0 <= i <= |s[1..]| && sub <= s[1..][i..];
      assert s[1..][i..] == s[i + 1..];
    }
  }
}
