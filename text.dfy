/**
 * The string primitives the history store relies on: case mapping,
 * JavaScript's notion of white space (as used by `String.prototype.trim`),
 * and `split(' ')` / `join(' ')` on single spaces.
 *
 * Case mapping: JavaScript's `toLocaleLowerCase` and `toUpperCase` apply the
 * full Unicode (and locale) case tables; here they are approximated by the
 * ASCII mappings, which agree with them on ASCII letters and leave every
 * other character unchanged.
 */
module Text {

  /**
   * ASCII approximation of `toUpperCase` on one character: a lower-case
   * letter becomes its capital, which lower-cases back to it; nothing else
   * changes, and white space stays white space.
   */
  function Upper(c: char): (r: char)
    ensures !('a' <= r <= 'z')
    ensures r != c <==> 'a' <= c <= 'z'
    ensures 'a' <= c <= 'z' ==> Lower(r) == c
    ensures IsJsWhitespace(r) <==> IsJsWhitespace(c)
  {
    if 'a' <= c <= 'z' then (c as int - 32) as char else c
  }

  /**
   * ASCII approximation of `toLocaleLowerCase` on one character: a capital
   * letter becomes a lower-case letter; nothing else changes.
   */
  function Lower(c: char): (r: char)
    ensures !('A' <= r <= 'Z')
    ensures r != c <==> 'A' <= c <= 'Z'
    ensures 'A' <= c <= 'Z' ==> 'a' <= r <= 'z'
    ensures r == ' ' <==> c == ' '
  {
    if 'A' <= c <= 'Z' then (c as int + 32) as char else c
  }

  /**
   * ASCII approximation of `toLocaleLowerCase` on a string: same length,
   * and every space stays where it was.
   */
  function LowerStr(s: string): (r: string)
    ensures |r| == |s|
    ensures forall i :: 0 <= i < |s| ==> (r[i] == ' ' <==> s[i] == ' ')
  {
    seq(|s|, i requires 0 <= i < |s| => Lower(s[i]))
  }

  /**
   * The characters ECMAScript's `trim` removes: WhiteSpace and
   * LineTerminator. No ASCII letter is among them.
   */
  predicate IsJsWhitespace(c: char)
    ensures IsJsWhitespace(c) ==> !('a' <= c <= 'z') && !('A' <= c <= 'Z')
  {
    || c == '\t' || c == '\n' || c == '\U{000B}' || c == '\U{000C}' || c == '\r'
    || c == ' ' || c == '\U{00A0}' || c == '\U{1680}'
    || ('\U{2000}' <= c <= '\U{200A}')
    || c == '\U{2028}' || c == '\U{2029}' || c == '\U{202F}' || c == '\U{205F}'
    || c == '\U{3000}' || c == '\U{FEFF}'
  }

  /** `p` without its leading white space, and nothing else removed. */
  function TrimStart(p: string): (r: string)
    ensures |r| <= |p| && r == p[|p| - |r|..]
    ensures forall i :: 0 <= i < |p| - |r| ==> IsJsWhitespace(p[i])
    ensures |r| > 0 ==> !IsJsWhitespace(r[0])
    ensures |r| == 0 <==> forall i :: 0 <= i < |p| ==> IsJsWhitespace(p[i])
  {
    if |p| == 0 || !IsJsWhitespace(p[0]) then p
    else
      var r := TrimStart(p[1..]);
      assert forall i :: 1 <= i < |p| ==> p[i] == p[1..][i - 1];
      r
  }

  /** `p` without its trailing white space, and nothing else removed. */
  function TrimEnd(p: string): (r: string)
    ensures |r| <= |p| && r == p[..|r|]
    ensures forall i :: |r| <= i < |p| ==> IsJsWhitespace(p[i])
    ensures |r| > 0 ==> !IsJsWhitespace(r[|r| - 1])
    ensures |r| == 0 <==> forall i :: 0 <= i < |p| ==> IsJsWhitespace(p[i])
  {
    if |p| == 0 || !IsJsWhitespace(p[|p| - 1]) then p
    else
      var r := TrimEnd(p[..|p| - 1]);
      assert forall i :: 0 <= i < |p| - 1 ==> p[i] == p[..|p| - 1][i];
      r
  }

  /** `p.trim()`: `p` without leading and trailing white space. */
  function Trim(p: string): (r: string)
    ensures |r| == 0 <==> forall i :: 0 <= i < |p| ==> IsJsWhitespace(p[i])
  {
    var q := TrimStart(p);
    assert |q| > 0 ==> q[0] in q;
    TrimEnd(q)
  }

  /** `p.trim().length == 0`: exactly the strings made of white space only, "" included. */
  predicate IsBlank(p: string)
    ensures IsBlank(p) <==> forall i :: 0 <= i < |p| ==> IsJsWhitespace(p[i])
  {
    |Trim(p)| == 0
  }

  /** Position of the first occurrence of `c` in `s`. */
  function IndexOf(s: string, c: char): (i: nat)
    requires c in s
    ensures i < |s| && s[i] == c
    ensures c !in s[..i]
  {
    if s[0] == c then 0
    else
      var j := IndexOf(s[1..], c);
      assert s[..j + 1] == [s[0]] + s[1..][..j];
      j + 1
  }

  /** `s.split(' ')`: the pieces of `s` between single spaces, empty pieces included. */
  function Split(s: string): (r: seq<string>)
    ensures |r| >= 1
    ensures forall k :: 0 <= k < |r| ==> ' ' !in r[k]
    decreases |s|
  {
    if ' ' !in s then [s]
    else
      var i := IndexOf(s, ' ');
      [s[..i]] + Split(s[i + 1..])
  }

  /**
   * `ts.join(' ')`: empty for no pieces; otherwise it starts with the first
   * piece, and a space follows it when more pieces come.
   */
  function Join(ts: seq<string>): (r: string)
    ensures |ts| == 0 ==> r == ""
    ensures |ts| >= 1 ==> |ts[0]| <= |r| && r[..|ts[0]|] == ts[0]
    ensures |ts| > 1 ==> |ts[0]| < |r| && r[|ts[0]|] == ' '
  {
    if |ts| == 0 then ""
    else if |ts| == 1 then ts[0]
    else ts[0] + " " + Join(ts[1..])
  }

  /** True when no piece contains the separator. */
  predicate SpaceFree(ts: seq<string>) {
    forall k :: 0 <= k < |ts| ==> ' ' !in ts[k]
  }

  /** Joining the pieces of a split gives the original string back. */
  lemma {:induction false} JoinSplit(s: string)
    ensures Join(Split(s)) == s
    decreases |s|
  {
    if ' ' in s {
      var i := IndexOf(s, ' ');
      var rest := Split(s[i + 1..]);
      JoinSplit(s[i + 1..]);
      assert Split(s) == [s[..i]] + rest;
      assert ([s[..i]] + rest)[1..] == rest;
      assert s == s[..i] + " " + s[i + 1..];
    }
  }

  /** `IndexOf` finds exactly the first occurrence. */
  lemma IndexOfFirst(s: string, c: char, k: nat)
    requires k < |s| && s[k] == c && c !in s[..k]
    ensures IndexOf(s, c) == k
  {
  }

  /** In `a + " " + b` with `a` space-free, the first space is the one after `a`. */
  lemma FirstSpace(a: string, b: string)
    requires ' ' !in a
    ensures IndexOf(a + " " + b, ' ') == |a|
  {
    var s := a + " " + b;
    assert s[..|a|] == a;
    IndexOfFirst(s, ' ', |a|);
  }

  /** Splitting `a + " " + b` with `a` space-free gives `a`, then the pieces of `b`. */
  lemma SplitCons(a: string, b: string)
    requires ' ' !in a
    ensures Split(a + " " + b) == [a] + Split(b)
  {
    var s := a + " " + b;
    FirstSpace(a, b);
    assert s[..|a|] == a;
    assert s[|a| + 1..] == b;
  }

  /** Splitting a join of space-free pieces gives the pieces back. */
  lemma {:induction false} SplitJoin(ts: seq<string>)
    requires |ts| >= 1 && SpaceFree(ts)
    ensures Split(Join(ts)) == ts
  {
    if |ts| > 1 {
      SplitCons(ts[0], Join(ts[1..]));
      SplitJoin(ts[1..]);
      assert ts == [ts[0]] + ts[1..];
    }
  }

  /** The number of pieces is one more than the number of spaces. */
  function SpaceCount(s: string): nat {
    if |s| == 0 then 0 else (if s[0] == ' ' then 1 else 0) + SpaceCount(s[1..])
  }

  lemma {:induction false} SpaceCountAppend(a: string, b: string)
    ensures SpaceCount(a + b) == SpaceCount(a) + SpaceCount(b)
    decreases |a|
  {
    if |a| > 0 {
      assert (a + b)[1..] == a[1..] + b;
      assert SpaceCount(a + b) == (if a[0] == ' ' then 1 else 0) + SpaceCount(a[1..] + b);
      SpaceCountAppend(a[1..], b);
    } else {
      assert a + b == b;
    }
  }

  lemma {:induction false} SpaceCountFree(s: string)
    requires ' ' !in s
    ensures SpaceCount(s) == 0
    decreases |s|
  {
    if |s| > 0 {
      assert s[0] in s;
      SpaceCountFree(s[1..]);
    }
  }

  lemma {:induction false} SplitCount(s: string)
    ensures |Split(s)| == SpaceCount(s) + 1
    decreases |s|
  {
    if ' ' !in s {
      SpaceCountFree(s);
    } else {
      var i := IndexOf(s, ' ');
      SplitCount(s[i + 1..]);
      assert s == s[..i] + ([' '] + s[i + 1..]);
      SpaceCountAppend(s[..i], [' '] + s[i + 1..]);
      SpaceCountAppend([' '], s[i + 1..]);
      SpaceCountFree(s[..i]);
    }
  }
}
