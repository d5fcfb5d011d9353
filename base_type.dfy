/** `getBaseType` of the C# generator: the JavaScript replacement
    `type.replace(/(^|^list\s*<\s*)([a-zA-Z0-9_\s]*)($|\s*>\s*$)/i, '$2')`,
    with the regular expression's backtracking search written out. Both
    alternatives of the first group are anchored at the start and the last
    group at the end, so a match is the whole string and the result is the
    middle group, or the string itself when nothing matches. */
module BaseType {
  import opened Wrappers

  /** `[a-zA-Z0-9_]`; the `i` flag adds no character to it, because
      case-insensitive matching without the `u` flag never maps a
      non-ASCII character onto an ASCII one. */
  predicate IsWordChar(ch: char) {
    'a' <= ch <= 'z' || 'A' <= ch <= 'Z' || '0' <= ch <= '9' || ch == '_'
  }

  /** JavaScript's `\s`: white space and line terminators. */
  predicate IsJsSpace(ch: char) {
    ch == '\t' || ch == '\n' || ch == '\U{B}' || ch == '\U{C}' || ch == '\r' || ch == ' '
    || ch == '\U{A0}' || ch == '\U{1680}' || '\U{2000}' <= ch <= '\U{200A}'
    || ch == '\U{2028}' || ch == '\U{2029}' || ch == '\U{202F}' || ch == '\U{205F}'
    || ch == '\U{3000}' || ch == '\U{FEFF}'
  }

  /** The class of the middle group, `[a-zA-Z0-9_\s]`. */
  predicate InClass(ch: char) {
    IsWordChar(ch) || IsJsSpace(ch)
  }

  /** Where a greedy run of class characters starting at `i` stops. */
  function RunEnd(s: string, i: nat): (m: nat)
    requires i <= |s|
    ensures i <= m <= |s|
    ensures forall j :: i <= j < m ==> InClass(s[j])
    ensures m < |s| ==> !InClass(s[m])
    decreases |s| - i
  {
    if i == |s| || !InClass(s[i]) then i else RunEnd(s, i + 1)
  }

  /** Where a greedy run of `\s` starting at `i` stops. */
  function SkipSpaces(s: string, i: nat): (j: nat)
    requires i <= |s|
    ensures i <= j <= |s|
    ensures forall k :: i <= k < j ==> IsJsSpace(s[k])
    ensures j < |s| ==> !IsJsSpace(s[j])
    decreases |s| - i
  {
    if i == |s| || !IsJsSpace(s[i]) then i else SkipSpaces(s, i + 1)
  }

  /** The last group matches at `m`: `$`, or `\s*>\s*$`. Since `\s` is in
      the middle group's class, a run ending at `m` leaves no white space
      for the leading `\s*`. */
  predicate CloseAt(s: string, m: nat)
    requires m <= |s|
  {
    m == |s| || (s[m] == '>' && forall k :: m < k < |s| ==> IsJsSpace(s[k]))
  }

  /** `^list\s*<\s*`, case-insensitively: where the middle group would start. */
  function ListOpen(s: string): (p: Option<nat>)
    ensures p.Some? ==> 5 <= p.value <= |s|
  {
    if |s| >= 5 && s[0] in "lL" && s[1] in "iI" && s[2] in "sS" && s[3] in "tT" then
      var q := SkipSpaces(s, 4);
      if q < |s| && s[q] == '<' then Some(SkipSpaces(s, q + 1)) else None
    else None
  }

  /** The middle group of the first match, or the string itself. The first
      alternative is tried first, with the longest middle group; a shorter
      one never succeeds where the longest failed. */
  function GetBaseType(s: string): (r: string)
    ensures r != s ==> forall i :: 0 <= i < |r| ==> InClass(r[i])
  {
    var m := RunEnd(s, 0);
    if CloseAt(s, m) then s[..m]
    else match ListOpen(s)
      case Some(p) => var m2 := RunEnd(s, p); if CloseAt(s, m2) then s[p..m2] else s
      case None => s
  }

  /** A name made of class characters only is its own base type. */
  lemma PlainNameUnchanged(s: string)
    requires forall i :: 0 <= i < |s| ==> InClass(s[i])
    ensures GetBaseType(s) == s
  {
    RunEndAll(s, 0);
    assert s[..|s|] == s;
  }

  lemma {:induction false} RunEndAll(s: string, i: nat)
    requires i <= |s|
    requires forall j :: i <= j < |s| ==> InClass(s[j])
    ensures RunEnd(s, i) == |s|
    decreases |s| - i
  {
    if i < |s| {
      RunEndAll(s, i + 1);
    }
  }

  /** Taking the base type twice changes nothing more. */
  lemma Idempotent(s: string)
    ensures GetBaseType(GetBaseType(s)) == GetBaseType(s)
  {
    var r := GetBaseType(s);
    if r != s {
      PlainNameUnchanged(r);
    }
  }

  /** One `list<...>` wrapper, in any letter case, is stripped from a name
      made of word characters. */
  lemma ListStripped(kw: string, t: string)
    requires |kw| == 4 && kw[0] in "lL" && kw[1] in "iI" && kw[2] in "sS" && kw[3] in "tT"
    requires forall i :: 0 <= i < |t| ==> IsWordChar(t[i])
    ensures GetBaseType(kw + "<" + t + ">") == t
  {
    var s := kw + "<" + t + ">";
    assert s[4] == '<';
    assert RunEnd(s, 0) == 4 by {
      assert forall j :: 0 <= j < 4 ==> s[j] == kw[j];
      RunEndStops(s, 0, 4);
    }
    assert SkipSpaces(s, 4) == 4;
    assert s[5 + |t|] == '>';
    if |t| > 0 {
      assert s[5] == t[0];
    }
    assert SkipSpaces(s, 5) == 5;
    assert forall j :: 5 <= j < 5 + |t| ==> s[j] == t[j - 5];
    RunEndStops(s, 5, 5 + |t|);
    assert s[5..5 + |t|] == t;
  }

  /** A run over class characters up to a non-class character ends there. */
  lemma {:induction false} RunEndStops(s: string, i: nat, m: nat)
    requires i <= m < |s|
    requires forall j :: i <= j < m ==> InClass(s[j])
    requires !InClass(s[m])
    ensures RunEnd(s, i) == m
    decreases m - i
  {
    if i < m {
      RunEndStops(s, i + 1, m);
    }
  }

  /** Only a plain element type is unwrapped: a nested list is left as it is. */
  lemma NestedListUnchanged()
    ensures GetBaseType("list<list<Foo>>") == "list<list<Foo>>"
  {
    var s := "list<list<Foo>>";
    RunEndStops(s, 0, 4);
    assert SkipSpaces(s, 4) == 4;
    assert SkipSpaces(s, 5) == 5;
    RunEndStops(s, 5, 9);
  }
}
