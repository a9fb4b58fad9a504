/** Character classes of the command grammar's regular expressions, and the
    greedy "longest run" that every regex token in the grammar matches. */
module Chars {

  /** Python's `\s` (and `str.isspace`): the characters Python treats as whitespace. */
  predicate IsSpace(c: char) {
    var n := c as int;
    (9 <= n <= 13) || (28 <= n <= 32) || n == 0x85 || n == 0xA0 || n == 0x1680
    || (0x2000 <= n <= 0x200A) || n == 0x2028 || n == 0x2029 || n == 0x202F
    || n == 0x205F || n == 0x3000
  }

  predicate IsDigit(c: char) { '0' <= c <= '9' }

  /** `[A-z]`: the ASCII range from 'A' to 'z', which also holds `[ \ ] ^ _` and the backquote. */
  predicate IsActionHead(c: char) { 'A' <= c <= 'z' }

  datatype CharClass =
    | Space        // \s
    | NonSpace     // what str.split() keeps
    | Digit        // [\d]
    | ActionChar   // [A-z0-9\-]
    | WordChar     // [^\s#]
    | LiteralChar  // [^"#]
    | CommentChar  // . (anything but a newline)

  predicate InClass(c: char, k: CharClass) {
    match k
    case Space => IsSpace(c)
    case NonSpace => !IsSpace(c)
    case Digit => IsDigit(c)
    case ActionChar => IsActionHead(c) || IsDigit(c) || c == '-'
    case WordChar => !IsSpace(c) && c != '#'
    case LiteralChar => c != '"' && c != '#'
    case CommentChar => c != '\n'
  }

  /** Length of the longest prefix of `s` made of class-`k` characters: what a
      greedy `[...]*` matches at the start of `s`. */
  function RunLength(s: string, k: CharClass): (n: nat)
    ensures n <= |s|
    ensures forall j :: 0 <= j < n ==> InClass(s[j], k)
    ensures n == |s| || !InClass(s[n], k)
  {
    if |s| > 0 && InClass(s[0], k) then 1 + RunLength(s[1..], k) else 0
  }

  /** The greedy run stops exactly where the class-`k` prefix `p` ends. */
  lemma RunLengthOf(p: string, q: string, k: CharClass)
    requires forall j :: 0 <= j < |p| ==> InClass(p[j], k)
    requires q == [] || !InClass(q[0], k)
    ensures RunLength(p + q, k) == |p|
  {
    assert forall j :: 0 <= j < |p| ==> (p + q)[j] == p[j];
    if q != [] {
      assert (p + q)[|p|] == q[0];
    }
  }
}
