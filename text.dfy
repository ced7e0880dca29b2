/**
 * String operations the services rely on: `String.prototype.trim`, substring
 * containment (SQL `LIKE '%q%'`), ASCII lower-casing, and code-point order
 * of strings, which stands in for the database's order for `ORDER BY title`.
 */
module Text {

  /** The characters `trim` removes that this model knows about. */
  predicate IsSpace(c: char) {
    c == ' ' || c == '\t' || c == '\n' || c == '\r' || c == '\U{000B}' || c == '\U{000C}'
    || c == '\U{00A0}' || c == '\U{FEFF}'
  }

  /** Every character of `s` is white space (this includes the empty string). */
  predicate IsBlank(s: string) {
    forall i :: 0 <= i < |s| ==> IsSpace(s[i])
  }

  /** `s` without its leading white space. */
  function TrimStart(s: string): (r: string)
    ensures |r| <= |s| && r == s[|s| - |r|..]
    ensures IsBlank(s[..|s| - |r|])
    ensures r != [] ==> !IsSpace(r[0])
  {
    if s != [] && IsSpace(s[0]) then TrimStart(s[1..]) else s
  }

  /** `s` without its trailing white space. */
  function TrimEnd(s: string): (r: string)
    ensures |r| <= |s| && r == s[..|r|]
    ensures IsBlank(s[|r|..])
    ensures r != [] ==> !IsSpace(r[|r| - 1])
  {
    if s != [] && IsSpace(s[|s| - 1]) then TrimEnd(s[..|s| - 1]) else s
  }

  /** `s.trim()`: white space removed from both ends. */
  function Trim(s: string): (r: string)
    ensures |r| <= |s|
    ensures r != [] ==> !IsSpace(r[0]) && !IsSpace(r[|r| - 1])
    ensures r == [] <==> IsBlank(s)
  {
    TrimBlank(s);
    TrimEnd(TrimStart(s))
  }

  lemma TrimBlank(s: string)
    ensures TrimEnd(TrimStart(s)) == [] <==> IsBlank(s)
  {
    var t := TrimStart(s);
    var r := TrimEnd(t);
    if r == [] {
      assert t[|r|..] == t;
      assert IsBlank(t) && t == [];
      forall i | 0 <= i < |s| ensures IsSpace(s[i]) {
        assert s[i] == s[..|s| - |t|][i];
      }
    } else {
      assert t[0] == r[0] && t[0] == s[|s| - |t|];
    }
  }

  lemma {:induction false} TrimStartOfPadded(pad: string, s: string)
    requires IsBlank(pad)
    requires s != [] ==> !IsSpace(s[0])
    ensures TrimStart(pad + s) == s
  {
    if pad != [] {
      assert (pad + s)[1..] == pad[1..] + s;
      TrimStartOfPadded(pad[1..], s);
    } else {
      assert pad + s == s;
    }
  }

  lemma {:induction false} TrimEndOfPadded(s: string, pad: string)
    requires IsBlank(pad)
    requires s != [] ==> !IsSpace(s[|s| - 1])
    ensures TrimEnd(s + pad) == s
  {
    if pad != [] {
      assert (s + pad)[..|s + pad| - 1] == s + pad[..|pad| - 1];
      TrimEndOfPadded(s, pad[..|pad| - 1]);
    } else {
      assert s + pad == s;
    }
  }

  /** `trim` removes exactly the white space padding around a word and nothing more. */
  lemma TrimOfPadded(left: string, s: string, right: string)
    requires IsBlank(left) && IsBlank(right)
    requires s != [] ==> !IsSpace(s[0]) && !IsSpace(s[|s| - 1])
    ensures Trim(left + s + right) == s
  {
    if s == [] {
      assert left + s + right == left + right;
      assert IsBlank(left + right) by {
        forall i | 0 <= i < |left + right| ensures IsSpace((left + right)[i]) {
          if i < |left| { assert (left + right)[i] == left[i]; }
          else { assert (left + right)[i] == right[i - |left|]; }
        }
      }
    } else {
      assert left + s + right == left + (s + right);
      TrimStartOfPadded(left, s + right);
      TrimEndOfPadded(s, right);
    }
  }

  /** Trimming twice is the same as trimming once. */
  lemma TrimIdempotent(s: string)
    ensures Trim(Trim(s)) == Trim(s)
  {
    var r := Trim(s);
    assert IsBlank([]);
    assert [] + r + [] == r;
    TrimOfPadded([], r, []);
  }

  /** `t` occurs in `s` at position `i`. */
  predicate OccursAt(s: string, t: string, i: int) {
    0 <= i <= |s| - |t| && s[i..i + |t|] == t
  }

  /** `t` is a substring of `s`: SQL `s LIKE '%' || t || '%'` with no wildcard in `t`. */
  function Contains(s: string, t: string): (b: bool)
    ensures b ==> |t| <= |s|
    decreases |s|
  {
    t <= s || (s != [] && Contains(s[1..], t))
  }

  /** `Contains` agrees with the positional definition of a substring, in both directions. */
  lemma {:induction false} ContainsIff(s: string, t: string)
    ensures Contains(s, t) <==> exists i :: OccursAt(s, t, i)
    decreases |s|
  {
    if t <= s {
      assert OccursAt(s, t, 0);
    } else if s == [] {
      forall i ensures !OccursAt(s, t, i) {
      }
    } else {
      ContainsIff(s[1..], t);
      if Contains(s[1..], t) {
        var i :| OccursAt(s[1..], t, i);
        assert s[1..][i..i + |t|] == s[i + 1..i + 1 + |t|];
        assert OccursAt(s, t, i + 1);
      } else {
        forall i ensures !OccursAt(s, t, i) {
          if 0 < i <= |s| - |t| {
            assert s[1..][i - 1..i - 1 + |t|] == s[i..i + |t|];
            assert !OccursAt(s[1..], t, i - 1);
          } else if i == 0 && |t| <= |s| {
            assert s[..|t|] != t;
          }
        }
      }
    }
  }

  /** ASCII lower-casing of one character; other characters are kept. */
  function LowerChar(c: char): (d: char)
    ensures 'A' <= c <= 'Z' ==> d as int == c as int + 32
    ensures !('A' <= c <= 'Z') ==> d == c
  {
    if 'A' <= c <= 'Z' then (c as int + 32) as char else c
  }

  /** `s.toLowerCase()` restricted to ASCII letters. */
  function ToLower(s: string): (r: string)
    ensures |r| == |s|
    ensures forall i :: 0 <= i < |s| ==> r[i] == LowerChar(s[i])
  {
    seq(|s|, i requires 0 <= i < |s| => LowerChar(s[i]))
  }

  /** Lexicographic order by character code point: `a` sorts no later than `b`. */
  predicate LexLe(a: string, b: string)
    decreases |a|
  {
    a == [] || (b != [] && (a[0] < b[0] || (a[0] == b[0] && LexLe(a[1..], b[1..]))))
  }

  lemma {:induction false} LexLeTotal(a: string, b: string)
    ensures LexLe(a, b) || LexLe(b, a)
    decreases |a|
  {
    if a != [] && b != [] && a[0] == b[0] {
      LexLeTotal(a[1..], b[1..]);
    }
  }

  lemma {:induction false} LexLeTransitive(a: string, b: string, c: string)
    requires LexLe(a, b) && LexLe(b, c)
    ensures LexLe(a, c)
    decreases |a|
  {
    if a != [] && b != [] && c != [] && a[0] == b[0] && b[0] == c[0] {
      LexLeTransitive(a[1..], b[1..], c[1..]);
    }
  }
}
