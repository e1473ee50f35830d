/**
 * The Python string builtins the chatbot relies on, stated over `seq<char>`:
 * case mapping (`lower`, `capitalize`, `title`) on ASCII letters,
 * substring membership (`sub in s`), `split(",")`, whitespace `split()`,
 * `replace(",", "")` and `list.index`.
 */
module Text {

  // ---------------------------------------------------------------------------
  // Case mapping
  // ---------------------------------------------------------------------------

  predicate IsUpperAscii(c: char) { 'A' <= c <= 'Z' }

  predicate IsLowerAscii(c: char) { 'a' <= c <= 'z' }

  /** A "cased" character in the sense of `str.title`: a letter. */
  predicate IsLetter(c: char) { IsUpperAscii(c) || IsLowerAscii(c) }

  function LowerChar(c: char): (r: char)
    ensures !IsUpperAscii(r)
    ensures IsLetter(r) == IsLetter(c)
    ensures !IsUpperAscii(c) ==> r == c
  {
    if IsUpperAscii(c) then (c as int + 32) as char else c
  }

  function UpperChar(c: char): (r: char)
    ensures !IsLowerAscii(r)
    ensures IsLetter(r) == IsLetter(c)
    ensures !IsLowerAscii(c) ==> r == c
  {
    if IsLowerAscii(c) then (c as int - 32) as char else c
  }

  lemma UpperOfLower(c: char)
    ensures UpperChar(LowerChar(c)) == UpperChar(c)
    ensures LowerChar(UpperChar(c)) == LowerChar(c)
  {
  }

  /** `s.lower()` */
  function Lower(s: string): (r: string)
    ensures |r| == |s|
    ensures forall i :: 0 <= i < |s| ==> r[i] == LowerChar(s[i])
  {
    if s == [] then [] else [LowerChar(s[0])] + Lower(s[1..])
  }

  /** Lower-casing leaves a string without upper-case letters alone. */
  lemma LowerOfNoUpper(s: string)
    requires forall c | c in s :: !IsUpperAscii(c)
    ensures Lower(s) == s
  {
    forall i | 0 <= i < |s| ensures Lower(s)[i] == s[i] {
      assert s[i] in s;
    }
  }

  /** `s.capitalize()`: first character upper-cased, the rest lower-cased. */
  function Capitalize(s: string): (r: string)
    ensures |r| == |s|
    ensures s != [] ==> r[0] == UpperChar(s[0]) && r[1..] == Lower(s[1..])
  {
    if s == [] then [] else [UpperChar(s[0])] + Lower(s[1..])
  }

  /**
   * `s.title()`: a letter is upper-cased when the character before it is not
   * a letter and lower-cased when it is; other characters are kept.
   * `afterLetter` says whether the character before `s` was a letter.
   */
  function TitleFrom(s: string, afterLetter: bool): (r: string)
    ensures |r| == |s|
    ensures forall i :: 0 <= i < |s| ==>
      r[i] == if (if i == 0 then afterLetter else IsLetter(s[i - 1])) then LowerChar(s[i]) else UpperChar(s[i])
  {
    if s == [] then []
    else
      var c := if afterLetter then LowerChar(s[0]) else UpperChar(s[0]);
      [c] + TitleFrom(s[1..], IsLetter(s[0]))
  }

  function Title(s: string): (r: string)
    ensures |r| == |s|
    ensures s != [] ==> r[0] == UpperChar(s[0])
  {
    TitleFrom(s, false)
  }

  /** `str.title` looks through the case of its input. */
  lemma {:induction false} TitleFromOfLower(s: string, afterLetter: bool)
    ensures TitleFrom(Lower(s), afterLetter) == TitleFrom(s, afterLetter)
  {
    if s != [] {
      UpperOfLower(s[0]);
      assert Lower(s)[1..] == Lower(s[1..]);
      TitleFromOfLower(s[1..], IsLetter(s[0]));
    }
  }

  /** A lower-case word is title-cased by upper-casing its first letter. */
  lemma TitleOfLowerWord(s: string)
    requires s != [] && forall c | c in s :: IsLowerAscii(c)
    ensures Title(s) == [UpperChar(s[0])] + s[1..]
  {
    var r := Title(s);
    forall i | 1 <= i < |s| ensures r[i] == s[i] {
      assert s[i - 1] in s && s[i] in s;
    }
  }

  /** Lower-casing undoes title-casing. */
  lemma LowerOfTitle(s: string)
    ensures Lower(Title(s)) == Lower(s)
  {
    var t := TitleFrom(s, false);
    forall i | 0 <= i < |s| ensures LowerChar(t[i]) == LowerChar(s[i]) {
      UpperOfLower(s[i]);
      var l := LowerChar(s[i]);
      assert LowerChar(l) == l;
      if i > 0 {
        // brings in the term the pointwise postcondition of TitleFrom is keyed on
        assert IsLetter(s[i - 1]) || !IsLetter(s[i - 1]);
      }
    }
  }

  /** Two lower-case words joined by a space are title-cased word by word. */
  lemma TitleOfTwoLowerWords(a: string, b: string)
    requires a != [] && forall c | c in a :: IsLowerAscii(c)
    requires b != [] && forall c | c in b :: IsLowerAscii(c)
    ensures Title(a + " " + b) == [UpperChar(a[0])] + a[1..] + " " + [UpperChar(b[0])] + b[1..]
  {
    var s := a + " " + b;
    var r := Title(s);
    var e := [UpperChar(a[0])] + a[1..] + " " + [UpperChar(b[0])] + b[1..];
    forall i | 0 <= i < |s| ensures r[i] == e[i] {
      if 0 < i < |a| {
        assert s[i - 1] == a[i - 1] && s[i] == a[i];
        assert a[i - 1] in a && a[i] in a;
      } else if i > |a| + 1 {
        assert s[i - 1] == b[i - |a| - 2] && s[i] == b[i - |a| - 1];
        assert b[i - |a| - 2] in b && b[i - |a| - 1] in b;
      }
    }
  }

  lemma TitleOfLower(s: string)
    ensures Title(Lower(s)) == Title(s)
  {
    TitleFromOfLower(s, false);
  }

  // ---------------------------------------------------------------------------
  // Substring membership: Python's `sub in s`
  // ---------------------------------------------------------------------------

  predicate StartsWith(s: string, prefix: string) {
    |prefix| <= |s| && s[..|prefix|] == prefix
  }

  /** `sub in s` for strings. */
  predicate Contains(s: string, sub: string)
    ensures Contains(s, sub) ==> |sub| <= |s|
  {
    StartsWith(s, sub) || (s != [] && Contains(s[1..], sub))
  }

  /** The occurrence `Contains` speaks of, as an index. */
  predicate OccursAt(s: string, sub: string, i: int) {
    0 <= i && i + |sub| <= |s| && s[i..i + |sub|] == sub
  }

  lemma {:induction false} ContainsOccurs(s: string, sub: string) returns (i: nat)
    requires Contains(s, sub)
    ensures OccursAt(s, sub, i)
  {
    if StartsWith(s, sub) {
      i := 0;
    } else {
      var j := ContainsOccurs(s[1..], sub);
      i := j + 1;
      assert s[1..][j..j + |sub|] == s[i..i + |sub|];
    }
  }

  lemma {:induction false} OccursContains(s: string, sub: string, i: int)
    requires OccursAt(s, sub, i)
    ensures Contains(s, sub)
  {
    if i > 0 {
      assert s[1..][i - 1..i - 1 + |sub|] == s[i..i + |sub|];
      OccursContains(s[1..], sub, i - 1);
    }
  }

  lemma ContainsIffOccurs(s: string, sub: string)
    ensures Contains(s, sub) <==> exists i :: OccursAt(s, sub, i)
  {
    if Contains(s, sub) {
      var i := ContainsOccurs(s, sub);
    }
    if exists i :: OccursAt(s, sub, i) {
      var i :| OccursAt(s, sub, i);
      OccursContains(s, sub, i);
    }
  }

  /** `u in t` and `t in s` give `u in s`. */
  lemma ContainsTransitive(s: string, t: string, u: string)
    requires Contains(s, t) && Contains(t, u)
    ensures Contains(s, u)
  {
    var i := ContainsOccurs(s, t);
    var j := ContainsOccurs(t, u);
    forall k | 0 <= k < |u|
      ensures u[k] == s[i + j + k]
    {
      assert u[k] == t[j + k] == s[i..i + |t|][j + k];
    }
    assert s[i + j..i + j + |u|] == u;
    OccursContains(s, u, i + j);
  }

  lemma ContainsEmpty(s: string)
    ensures Contains(s, "")
  {
    assert StartsWith(s, "");
  }

  /** Every character of a contained string occurs in the containing one. */
  lemma ContainsChars(s: string, sub: string)
    ensures Contains(s, sub) ==> forall c | c in sub :: c in s
  {
    if Contains(s, sub) {
      var i := ContainsOccurs(s, sub);
      forall c | c in sub ensures c in s {
        var k :| 0 <= k < |sub| && sub[k] == c;
        assert s[i + k] == c;
      }
    }
  }

  // ---------------------------------------------------------------------------
  // `s.split(sep)` and its inverse `sep.join(parts)`
  // ---------------------------------------------------------------------------

  /**
   * `s.split(sep)` for a one-character separator: the pieces between
   * separators, empty pieces included; `"".split(",")` is `[""]`.
   */
  function Split(s: string, sep: char): (r: seq<string>)
    ensures |r| >= 1
    ensures forall k :: 0 <= k < |r| ==> sep !in r[k]
  {
    if s == [] then [""]
    else if s[0] == sep then [""] + Split(s[1..], sep)
    else
      var rest := Split(s[1..], sep);
      [[s[0]] + rest[0]] + rest[1..]
  }

  /** `sep.join(parts)` */
  function Join(parts: seq<string>, sep: char): string
  {
    if parts == [] then []
    else if |parts| == 1 then parts[0]
    else parts[0] + [sep] + Join(parts[1..], sep)
  }

  /** Joining the pieces of a split gives back the original string. */
  lemma {:induction false} JoinSplit(s: string, sep: char)
    ensures Join(Split(s, sep), sep) == s
  {
    if s != [] {
      var rest := Split(s[1..], sep);
      JoinSplit(s[1..], sep);
      if s[0] == sep {
        assert Split(s, sep) == [""] + rest;
        assert Join(Split(s, sep), sep) == [sep] + Join(rest, sep);
      } else {
        var r := Split(s, sep);
        assert r == [[s[0]] + rest[0]] + rest[1..];
        if |rest| == 1 {
          assert Join(r, sep) == [s[0]] + rest[0];
        } else {
          assert r[1..] == rest[1..];
          assert Join(rest, sep) == rest[0] + [sep] + Join(rest[1..], sep);
        }
      }
    }
  }

  /** Splitting a join of separator-free pieces gives back the pieces. */
  lemma {:induction false} SplitJoin(parts: seq<string>, sep: char)
    requires |parts| >= 1
    requires forall k :: 0 <= k < |parts| ==> sep !in parts[k]
    ensures Split(Join(parts, sep), sep) == parts
  {
    if |parts| == 1 {
      SplitWithoutSeparator(parts[0], sep);
    } else {
      SplitJoin(parts[1..], sep);
      SplitAppend(parts[0], Join(parts[1..], sep), sep);
      assert Join(parts, sep) == parts[0] + [sep] + Join(parts[1..], sep);
    }
  }

  /** A string with no separator splits into itself. */
  lemma {:induction false} SplitWithoutSeparator(s: string, sep: char)
    requires sep !in s
    ensures Split(s, sep) == [s]
  {
    if s != [] {
      assert s[0] in s;
      assert forall x :: x in s[1..] ==> x in s;
      SplitWithoutSeparator(s[1..], sep);
      assert [s[0]] + s[1..] == s;
    }
  }

  lemma {:induction false} SplitAppend(w: string, t: string, sep: char)
    requires sep !in w
    ensures Split(w + [sep] + t, sep) == [w] + Split(t, sep)
  {
    if w == [] {
      assert [sep] + t == w + [sep] + t;
    } else {
      assert (w + [sep] + t)[1..] == w[1..] + [sep] + t;
      SplitAppend(w[1..], t, sep);
      assert [w[0]] + w[1..] == w;
    }
  }

  /** The set Python builds with `set(s.split(","))`. */
  function CommaSet(s: string): (r: set<string>)
    ensures r != {}
    ensures forall x :: x in r <==> x in Split(s, ',')
  {
    var r := set x | x in Split(s, ',');
    assert Split(s, ',')[0] in r;
    r
  }

  // ---------------------------------------------------------------------------
  // `s.replace(c, "")`, whitespace `s.split()` and `list.index`
  // ---------------------------------------------------------------------------

  /** `s.replace(c, "")` for a one-character `c`. */
  function RemoveAll(s: string, c: char): (r: string)
    ensures c !in r
    ensures |r| <= |s|
    ensures forall x :: x in r <==> x in s && x != c
    ensures forall x :: x != c ==> multiset(r)[x] == multiset(s)[x]
  {
    if s == [] then []
    else
      assert s == [s[0]] + s[1..];
      (if s[0] == c then [] else [s[0]]) + RemoveAll(s[1..], c)
  }

  /** The characters Python's `str.split()` treats as white space (ASCII and Latin-1). */
  predicate IsSpace(c: char) {
    c == ' ' || c == '\t' || c == '\n' || c == '\r' || c == '\U{0B}' || c == '\U{0C}'
    || ('\U{1C}' <= c <= '\U{1F}') || c == '\U{85}' || c == '\U{A0}'
  }

  /** The longest prefix of `s` without white space. */
  function Word(s: string): (r: string)
    ensures |r| <= |s| && r == s[..|r|]
    ensures forall c :: c in r ==> !IsSpace(c)
    ensures s != [] && !IsSpace(s[0]) ==> |r| >= 1
    ensures |r| < |s| ==> IsSpace(s[|r|])
  {
    if s == [] || IsSpace(s[0]) then [] else [s[0]] + Word(s[1..])
  }

  /** `s.split()`: the maximal runs of non-white-space characters, in order. */
  function Tokens(s: string): (r: seq<string>)
    ensures forall k :: 0 <= k < |r| ==> r[k] != [] && forall c :: c in r[k] ==> !IsSpace(c) && c in s
    ensures r == [] <==> forall c | c in s :: IsSpace(c)
    decreases |s|
  {
    if s == [] then []
    else if IsSpace(s[0]) then
      assert s == [s[0]] + s[1..];
      Tokens(s[1..])
    else
      var w := Word(s);
      [w] + Tokens(s[|w|..])
  }

  /** Removal distributes over concatenation, so the kept characters stay in order. */
  lemma {:induction false} RemoveAllAppend(a: string, b: string, c: char)
    ensures RemoveAll(a + b, c) == RemoveAll(a, c) + RemoveAll(b, c)
  {
    if a == [] {
      assert a + b == b;
    } else {
      assert (a + b)[0] == a[0];
      assert (a + b)[1..] == a[1..] + b;
      RemoveAllAppend(a[1..], b, c);
    }
  }

  /** A word never runs across white space at the end of `a` or the start of `b`. */
  lemma {:induction false} WordAppend(a: string, b: string)
    requires (a != [] && IsSpace(a[|a| - 1])) || (b != [] && IsSpace(b[0]))
    ensures Word(a + b) == Word(a)
  {
    if a == [] {
      assert a + b == b;
    } else if !IsSpace(a[0]) {
      assert (a + b)[0] == a[0];
      assert (a + b)[1..] == a[1..] + b;
      if a[1..] == [] {
        assert a[1..] + b == b;
      } else {
        assert a[1..][|a[1..]| - 1] == a[|a| - 1];
        WordAppend(a[1..], b);
      }
    } else {
      assert (a + b)[0] == a[0];
    }
  }

  /**
   * Tokens never run across white space: splitting the input at a white-space
   * character splits the token list there. With `Tokens(w) == [w]` for a
   * white-space-free `w` and `[]` for white space alone, this fixes `split()`
   * to be the maximal runs without white space, in order.
   */
  lemma {:induction false} TokensAppend(a: string, b: string)
    requires a == [] || IsSpace(a[|a| - 1]) || (b != [] && IsSpace(b[0]))
    ensures Tokens(a + b) == Tokens(a) + Tokens(b)
    decreases |a|
  {
    if a == [] {
      assert a + b == b;
    } else if IsSpace(a[0]) {
      LastOfDrop(a, 1);
      TokensAppend(a[1..], b);
      TokensAppendAfterSpace(a, b);
    } else {
      WordAppend(a, b);
      LastOfDrop(a, |Word(a)|);
      TokensAppend(a[|Word(a)|..], b);
      TokensAppendAfterWord(a, b);
    }
  }

  lemma LastOfDrop(a: string, k: nat)
    requires k <= |a|
    ensures a[k..] == [] || a[k..][|a[k..]| - 1] == a[|a| - 1]
  {
  }

  lemma TokensAppendAfterSpace(a: string, b: string)
    requires a != [] && IsSpace(a[0])
    requires Tokens(a[1..] + b) == Tokens(a[1..]) + Tokens(b)
    ensures Tokens(a + b) == Tokens(a) + Tokens(b)
  {
    assert (a + b)[0] == a[0];
    DropAppend(a, b, 1);
    TokensUnfoldSpace(a + b);
  }

  lemma TokensAppendAfterWord(a: string, b: string)
    requires a != [] && !IsSpace(a[0]) && Word(a + b) == Word(a)
    requires var rest := a[|Word(a)|..]; Tokens(rest + b) == Tokens(rest) + Tokens(b)
    ensures Tokens(a + b) == Tokens(a) + Tokens(b)
  {
    var w := Word(a);
    assert (a + b)[0] == a[0];
    DropAppend(a, b, |w|);
    TokensUnfoldWord(a + b);
    TokensUnfoldWord(a);
  }

  lemma TokensUnfoldSpace(s: string)
    requires s != [] && IsSpace(s[0])
    ensures Tokens(s) == Tokens(s[1..])
  {
  }

  lemma TokensUnfoldWord(s: string)
    requires s != [] && !IsSpace(s[0])
    ensures Tokens(s) == [Word(s)] + Tokens(s[|Word(s)|..])
  {
  }

  lemma DropAppend(a: string, b: string, k: nat)
    requires k <= |a|
    ensures (a + b)[k..] == a[k..] + b
  {
  }

  /** A non-empty run without white space is one token. */
  lemma TokensOfRun(w: string)
    requires w != [] && forall c | c in w :: !IsSpace(c)
    ensures Tokens(w) == [w]
  {
    WordOfWord(w, []);
    assert w + [] == w;
    assert w[0] in w;
    assert w[|w|..] == [];
  }

  /** Removing a character that does not occur changes nothing. */
  lemma {:induction false} RemoveAbsent(s: string, c: char)
    requires c !in s
    ensures RemoveAll(s, c) == s
  {
    if s != [] {
      assert forall x :: x in s[1..] ==> x in s;
      RemoveAbsent(s[1..], c);
      assert [s[0]] + s[1..] == s;
    }
  }

  /** A word of letters followed by a space is the first token. */
  lemma TokensOfWord(w: string, rest: string)
    requires w != [] && forall c | c in w :: IsLetter(c)
    ensures Tokens(w + " " + rest) == [w] + Tokens(rest)
  {
    var s := w + " " + rest;
    WordOfWord(w, " " + rest);
    assert w + " " + rest == w + (" " + rest);
    assert s[0] == w[0] && w[0] in w;
    assert Tokens(s) == [w] + Tokens(s[|w|..]);
    assert s[|w|..] == " " + rest;
    assert (" " + rest)[1..] == rest;
  }

  /** A single word of letters is its own only token. */
  lemma TokensOfLastWord(w: string)
    requires w != [] && forall c | c in w :: IsLetter(c)
    ensures Tokens(w) == [w]
  {
    WordOfWord(w, []);
    assert w + [] == w;
    assert w[0] in w;
    assert w[|w|..] == [];
  }

  lemma {:induction false} WordOfWord(w: string, t: string)
    requires forall c | c in w :: !IsSpace(c)
    requires t == [] || IsSpace(t[0])
    ensures Word(w + t) == w
  {
    if w == [] {
      assert w + t == t;
    } else {
      assert w[0] in w;
      assert forall c | c in w[1..] :: c in w;
      WordOfWord(w[1..], t);
      assert (w + t)[1..] == w[1..] + t;
      assert [w[0]] + w[1..] == w;
    }
  }

  /** `xs.index(x)`: the position of the first occurrence. */
  function IndexOf(xs: seq<string>, x: string): (i: nat)
    requires x in xs
    ensures i < |xs| && xs[i] == x
    ensures forall j :: 0 <= j < i ==> xs[j] != x
  {
    if xs[0] == x then 0 else 1 + IndexOf(xs[1..], x)
  }
}
