/** Strings and the small search primitives the extraction rules are built from. */
module Text {

  datatype Option<+T> = None | Some(value: T)

  /** `w` occurs in `s` starting at index `i`. */
  predicate IsAt(s: string, i: nat, w: string)
  {
    i + |w| <= |s| && s[i..i + |w|] == w
  }

  /** `w` occurs somewhere in `s`. */
  ghost predicate Contains(s: string, w: string)
  {
    exists i: nat :: IsAt(s, i, w)
  }

  predicate EndsWith(s: string, w: string)
  {
    |w| <= |s| && s[|s| - |w|..] == w
  }

  /** Two adjacent occurrences make one occurrence of the concatenation. */
  lemma IsAtConcat(s: string, i: nat, u: string, v: string)
    requires IsAt(s, i, u) && IsAt(s, i + |u|, v)
    ensures IsAt(s, i, u + v)
  {
    assert s[i..i + |u| + |v|] == s[i..i + |u|] + s[i + |u|..i + |u| + |v|];
  }

  /** The least index j >= i at which `w` occurs in `s`, or |s| + 1 when it occurs at none. */
  function FindFrom(s: string, w: string, i: nat): (k: nat)
    requires i <= |s| + 1
    ensures i <= k <= |s| + 1
    ensures k <= |s| ==> IsAt(s, k, w)
    ensures forall j :: i <= j < k ==> !IsAt(s, j, w)
    decreases |s| + 1 - i
  {
    if i == |s| + 1 then i
    else if IsAt(s, i, w) then i
    else FindFrom(s, w, i + 1)
  }

  /** The greatest index in [lo, hi) at which `w` occurs in `s`, if there is one. */
  function FindLast(s: string, w: string, lo: nat, hi: nat): (r: Option<nat>)
    requires lo <= hi
    ensures r.Some? ==> lo <= r.value < hi && IsAt(s, r.value, w)
    ensures r.Some? ==> forall j :: r.value < j < hi ==> !IsAt(s, j, w)
    ensures r.None? ==> forall j :: lo <= j < hi ==> !IsAt(s, j, w)
    decreases hi - lo
  {
    if lo == hi then None
    else if IsAt(s, hi - 1, w) then Some(hi - 1)
    else FindLast(s, w, lo, hi - 1)
  }

  /** Index of the first `c` in `s`, or `|s|`. */
  function IndexOf(s: string, c: char): (k: nat)
    ensures k <= |s| && (k < |s| ==> s[k] == c)
    ensures forall j :: 0 <= j < k ==> s[j] != c
  {
    if s == "" then 0
    else if s[0] == c then 0
    else 1 + IndexOf(s[1..], c)
  }

  /** What `String.Split(sep)` returns: the pieces between the separators, always at least one. */
  function Split(s: string, sep: char): (pieces: seq<string>)
    ensures |pieces| >= 1
    ensures forall k :: 0 <= k < |pieces| ==> sep !in pieces[k]
    decreases |s|
  {
    var k := IndexOf(s, sep);
    if k == |s| then [s] else [s[..k]] + Split(s[k + 1..], sep)
  }

  function Join(pieces: seq<string>, sep: char): string
  {
    if pieces == [] then ""
    else if |pieces| == 1 then pieces[0]
    else pieces[0] + [sep] + Join(pieces[1..], sep)
  }

  /** Splitting loses nothing: joining the pieces back gives the text. */
  lemma {:induction false} JoinSplit(s: string, sep: char)
    ensures Join(Split(s, sep), sep) == s
    decreases |s|
  {
    var k := IndexOf(s, sep);
    if k < |s| {
      var rest := Split(s[k + 1..], sep);
      assert Split(s, sep) == [s[..k]] + rest;
      assert Split(s, sep)[1..] == rest;
      JoinSplit(s[k + 1..], sep);
      assert s == s[..k] + [sep] + s[k + 1..];
    }
  }

  /** Whatever occurs in one piece of a split text occurs in the text. */
  lemma {:induction false} PieceOccurs(s: string, sep: char, k: nat, i: nat, w: string)
    requires k < |Split(s, sep)| && IsAt(Split(s, sep)[k], i, w)
    ensures Contains(s, w)
    decreases |s|
  {
    var pos := IndexOf(s, sep);
    if pos == |s| {
      assert IsAt(s, i, w);
    } else if k == 0 {
      assert s[..pos][i..i + |w|] == s[i..i + |w|];
      assert IsAt(s, i, w);
    } else {
      var tail := s[pos + 1..];
      assert Split(s, sep)[k] == Split(tail, sep)[k - 1];
      PieceOccurs(tail, sep, k - 1, i, w);
      var j: nat :| IsAt(tail, j, w);
      assert tail[j..j + |w|] == s[pos + 1 + j..pos + 1 + j + |w|];
      assert IsAt(s, pos + 1 + j, w);
    }
  }

  /** The characters `String.Trim()` removes, restricted to ASCII. */
  predicate IsSpace(c: char)
  {
    c == ' ' || c == '\t' || c == '\n' || c == '\r' || c == '\U{B}' || c == '\U{C}'
  }

  ghost predicate Blank(s: string)
  {
    forall j :: 0 <= j < |s| ==> IsSpace(s[j])
  }

  function TrimStart(s: string): (r: string)
    ensures |r| <= |s| && r == s[|s| - |r|..] && Blank(s[..|s| - |r|])
    ensures r == "" || !IsSpace(r[0])
  {
    if s != "" && IsSpace(s[0]) then TrimStart(s[1..]) else s
  }

  function TrimEnd(s: string): (r: string)
    ensures |r| <= |s| && r == s[..|r|] && Blank(s[|r|..])
    ensures r == "" || !IsSpace(r[|r| - 1])
  {
    if s != "" && IsSpace(s[|s| - 1]) then TrimEnd(s[..|s| - 1]) else s
  }

  /** `String.Trim()`: the text between the leading and the trailing whitespace. */
  function Trim(s: string): (r: string)
    ensures r == "" || (!IsSpace(r[0]) && !IsSpace(r[|r| - 1]))
    ensures exists i: nat :: IsAt(s, i, r) && Blank(s[..i]) && Blank(s[i + |r|..])
  {
    var t := TrimStart(s);
    var r := TrimEnd(t);
    var i := |s| - |t|;
    assert t == s[i..];
    assert s[i..i + |r|] == t[..|r|];
    assert s[i + |r|..] == t[|r|..];
    assert IsAt(s, i, r) && Blank(s[..i]) && Blank(s[i + |r|..]);
    r
  }

  /** How one pattern character matches when `.` is the only regular-expression operator in the pattern. */
  predicate CharMatches(pc: char, c: char)
  {
    if pc == '.' then c != '\n' else c == pc
  }

  /** The characters with a meaning in a .NET regular expression, apart from `.`. */
  const RegexOperators: set<char> := {'\\', '*', '+', '?', '|', '{', '[', '(', ')', '^', '$'}

  /** A pattern whose only operator is `.`, so that `WildAt` is what the regex engine does with it. */
  predicate PlainPattern(p: string)
  {
    forall k :: 0 <= k < |p| ==> p[k] !in RegexOperators
  }

  /** The pattern `p` matches `s` at index `i`. */
  predicate WildAt(s: string, i: nat, p: string)
  {
    i + |p| <= |s| && forall j :: 0 <= j < |p| ==> CharMatches(p[j], s[i + j])
  }

  /** A literal occurrence is a match: `.` in the pattern then stands for a `.` in the text, which is not '\n'. */
  lemma LiteralIsWild(s: string, i: nat, p: string)
    requires IsAt(s, i, p)
    ensures WildAt(s, i, p)
  {
    forall j | 0 <= j < |p| ensures CharMatches(p[j], s[i + j]) {
      assert s[i..i + |p|][j] == s[i + j];
    }
  }

  /** The least index j >= i at which the pattern `p` matches `s`, or |s| + 1 when it matches at none. */
  function WildFindFrom(s: string, p: string, i: nat): (k: nat)
    requires i <= |s| + 1
    ensures i <= k <= |s| + 1
    ensures k <= |s| ==> WildAt(s, k, p)
    ensures forall j :: i <= j < k ==> !WildAt(s, j, p)
    decreases |s| + 1 - i
  {
    if i == |s| + 1 then i
    else if WildAt(s, i, p) then i
    else WildFindFrom(s, p, i + 1)
  }
}
