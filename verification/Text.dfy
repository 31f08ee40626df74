/** Character classes and sizes of Unicode text. */
module Text {

  function CharSize(c: char): (n: nat)
    ensures 1 <= n <= 4
  {
    if c < 0x80 as char then 1 else if c < 0x800 as char then 2 else if c < '\U{10000}' then 3 else 4
  }

  function Utf8Size(s: string): (n: nat)
    ensures |s| <= n <= 4 * |s|
  {
    if s == [] then 0 else Utf8Size(s[..|s| - 1]) + CharSize(s[|s| - 1])
  }

  /** Unicode `White_Space`. */
  predicate IsWhitespace(c: char) {
    var n := c as int;
    || 9 <= n <= 13 || n == 0x20 || n == 0x85 || n == 0xA0 || n == 0x1680 || 0x2000 <= n <= 0x200A
    || n == 0x2028 || n == 0x2029 || n == 0x202F || n == 0x205F || n == 0x3000
  }

  function Trim(t: string): (r: string) {
    if t != [] && IsWhitespace(t[0]) then Trim(t[1..])
    else if t != [] && IsWhitespace(t[|t| - 1]) then Trim(t[..|t| - 1])
    else t
  }

  /** Trimming takes whitespace off both ends and nothing else. */
  lemma {:induction false} TrimIs(t: string) returns (i: nat, j: nat)
    ensures i <= j <= |t| && Trim(t) == t[i..j]
    ensures forall k :: 0 <= k < i || j <= k < |t| ==> IsWhitespace(t[k])
    ensures Trim(t) != [] ==> !IsWhitespace(t[i]) && !IsWhitespace(t[j - 1])
    decreases |t|
  {
    hide IsWhitespace;
    if t != [] && IsWhitespace(t[0]) {
      i, j := TrimIs(t[1..]);
      assert t[1..][i..j] == t[i + 1..j + 1];
      assert forall k :: 1 <= k < |t| ==> t[k] == t[1..][k - 1];
      i, j := i + 1, j + 1;
    } else if t != [] && IsWhitespace(t[|t| - 1]) {
      var front := t[..|t| - 1];
      i, j := TrimIs(front);
      assert front[i..j] == t[i..j];
      assert forall k :: 0 <= k < |front| ==> t[k] == front[k];
    } else {
      i, j := 0, |t|;
    }
  }

  /** Unicode general category `Cc`. */
  predicate IsControl(c: char) {
    c < ' ' || 0x7F <= c as int <= 0x9F
  }
}
