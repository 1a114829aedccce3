/** String operations the server relies on, as JavaScript and MongoDB
    perform them: `trim`, ASCII `toLowerCase`, substring search, binary
    string ordering and `Array.prototype.join`. */
module Text {

  /** The characters JavaScript's `\s` class (and so `String.prototype.trim`)
      treats as white space. */
  predicate IsSpace(c: char) {
    || c == ' ' || c == '\t' || c == '\n' || c == '\r' || c == '\U{000B}' || c == '\U{000C}'
    || c == '\U{00A0}' || c == '\U{1680}' || ('\U{2000}' <= c <= '\U{200A}')
    || c == '\U{2028}' || c == '\U{2029}' || c == '\U{202F}' || c == '\U{205F}'
    || c == '\U{3000}' || c == '\U{FEFF}'
  }

  /** Drops leading white space. */
  function TrimStart(s: string): (r: string)
    ensures |r| <= |s|
  {
    if s != [] && IsSpace(s[0]) then TrimStart(s[1..]) else s
  }

  /** What `TrimStart` drops is a run of white space in front of what it
      keeps; it keeps nothing exactly when everything is white space. */
  lemma {:induction false} TrimStartDropsSpace(s: string)
    ensures var r := TrimStart(s);
      && r == s[|s| - |r|..]
      && (r == [] || !IsSpace(r[0]))
      && (r == [] <==> forall i :: 0 <= i < |s| ==> IsSpace(s[i]))
  {
    if s != [] && IsSpace(s[0]) {
      TrimStartDropsSpace(s[1..]);
      assert forall i :: 0 < i < |s| ==> s[i] == s[1..][i - 1];
    }
  }

  /** Drops trailing white space. */
  function TrimEnd(s: string): (r: string)
    ensures |r| <= |s|
  {
    if s != [] && IsSpace(s[|s| - 1]) then TrimEnd(s[..|s| - 1]) else s
  }

  /** What `TrimEnd` keeps is a prefix that does not end in white space,
      and what it drops is white space. */
  lemma {:induction false} TrimEndDropsSpace(s: string)
    ensures var r := TrimEnd(s);
      && r == s[..|r|]
      && (r == [] || !IsSpace(r[|r| - 1]))
      && (forall i :: |r| <= i < |s| ==> IsSpace(s[i]))
  {
    if s != [] && IsSpace(s[|s| - 1]) {
      TrimEndDropsSpace(s[..|s| - 1]);
    }
  }

  /** `String.prototype.trim`: the result has no white space at either end,
      and it is empty exactly when the input is all white space. */
  function Trim(s: string): (r: string)
    ensures |r| <= |s|
    ensures r == [] || (!IsSpace(r[0]) && !IsSpace(r[|r| - 1]))
    ensures r == [] <==> forall i :: 0 <= i < |s| ==> IsSpace(s[i])
  {
    var u := TrimStart(s);
    TrimStartDropsSpace(s);
    var r := TrimEnd(u);
    TrimEndDropsSpace(u);
    assert r != [] ==> r[0] == u[0];
    assert r == [] <==> u == [];
    r
  }

  predicate IsAsciiUpper(c: char) {
    'A' <= c <= 'Z'
  }

  /** `toLowerCase` on one character, over ASCII. */
  function LowerChar(c: char): (d: char)
    ensures !IsAsciiUpper(d)
    ensures IsAsciiUpper(c) ==> d as int == c as int + 32
    ensures !IsAsciiUpper(c) ==> d == c
  {
    if IsAsciiUpper(c) then (c as int + 32) as char else c
  }

  /** `toLowerCase` over a string: one output character per input character. */
  function Lower(s: string): (r: string)
    ensures |r| == |s|
    ensures forall i :: 0 <= i < |s| ==> r[i] == LowerChar(s[i])
  {
    seq(|s|, i requires 0 <= i < |s| => LowerChar(s[i]))
  }

  /** `q` occurs in `text` starting at index `i`. */
  predicate OccursAt(text: string, q: string, i: int) {
    0 <= i <= |text| - |q| && text[i..i + |q|] == q
  }

  /** Substring search, scanning `text` from the left. */
  function Contains(text: string, q: string): bool
    decreases |text|
  {
    q <= text || (text != [] && Contains(text[1..], q))
  }

  /** The scan finds `q` exactly when `q` occurs somewhere in `text`. */
  lemma {:induction false} ContainsIffOccurs(text: string, q: string)
    ensures Contains(text, q) <==> exists i :: OccursAt(text, q, i)
  {
    if q <= text {
      assert OccursAt(text, q, 0);
    } else if text == [] {
    } else {
      ContainsIffOccurs(text[1..], q);
      if exists j :: OccursAt(text[1..], q, j) {
        var j :| OccursAt(text[1..], q, j);
        assert text[1..][j..j + |q|] == text[j + 1..j + 1 + |q|];
        assert OccursAt(text, q, j + 1);
      }
      if exists i :: OccursAt(text, q, i) {
        var i :| OccursAt(text, q, i);
        assert i != 0;
        assert text[1..][i - 1..i - 1 + |q|] == text[i..i + |q|];
        assert OccursAt(text[1..], q, i - 1);
      }
    }
  }

  /** Case-insensitive substring match (MongoDB `$regex` with option `i`,
      for a query with no regular-expression metacharacters). */
  predicate ContainsIgnoreCase(text: string, q: string) {
    Contains(Lower(text), Lower(q))
  }

  /** MongoDB's default string order: lexicographic by code point. */
  predicate LexLe(a: string, b: string)
    decreases |a|
  {
    a == [] || (b != [] && (a[0] < b[0] || (a[0] == b[0] && LexLe(a[1..], b[1..]))))
  }

  lemma {:induction false} LexLeTotal(a: string, b: string)
    ensures LexLe(a, b) || LexLe(b, a)
    decreases |a|
  {
    if a != [] && b != [] && a[0] == b[0] {
      LexLeTotal(a[1..], b[1..]);
    }
  }

  lemma {:induction false} LexLeTransitive(a: string, b: string, c: string)
    requires LexLe(a, b) && LexLe(b, c)
    ensures LexLe(a, c)
    decreases |a|
  {
    if a != [] && a[0] == b[0] && b[0] == c[0] {
      LexLeTransitive(a[1..], b[1..], c[1..]);
    }
  }

  /** `Array.prototype.join(sep)`. */
  function Join(parts: seq<string>, sep: string): (r: string)
    ensures parts == [] ==> r == ""
    ensures |parts| == 1 ==> r == parts[0]
    ensures |parts| >= 1 ==> parts[0] <= r
  {
    if |parts| == 0 then ""
    else if |parts| == 1 then parts[0]
    else parts[0] + sep + Join(parts[1..], sep)
  }
}
