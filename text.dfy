/**
 * String primitives the client and the server both use: whitespace trimming
 * (JavaScript `trim`, Python `strip`), splitting on one character (`split(',')`
 * in both languages), joining, ASCII lower-casing, case-insensitive substring
 * search, and the `\w+` word tokens of a regular expression.
 */
module Text {

  /** ASCII whitespace: space, tab, line feed, vertical tab, form feed, carriage return. */
  predicate IsSpace(c: char) {
    c == ' ' || ('\t' <= c <= '\r')
  }

  /** A string with no whitespace at either end. */
  predicate IsTrimmed(s: string) {
    s == [] || (!IsSpace(s[0]) && !IsSpace(s[|s| - 1]))
  }

  predicate AllSpace(s: string) {
    forall i :: 0 <= i < |s| ==> IsSpace(s[i])
  }

  /** Drops the leading whitespace. */
  function TrimStart(s: string): (r: string)
    ensures |r| <= |s|
    ensures r == [] || !IsSpace(r[0])
  {
    if |s| > 0 && IsSpace(s[0]) then TrimStart(s[1..]) else s
  }

  /** What `TrimStart` removes: a whitespace prefix, leaving a suffix of `s`. */
  lemma {:induction false} TrimStartSuffix(s: string)
    ensures var r := TrimStart(s); r == s[|s| - |r|..] && AllSpace(s[..|s| - |r|])
  {
    if |s| > 0 && IsSpace(s[0]) {
      TrimStartSuffix(s[1..]);
      var r := TrimStart(s);
      assert s[1..][..|s| - 1 - |r|] == s[1..|s| - |r|];
    }
  }

  /** Drops the trailing whitespace. */
  function TrimEnd(s: string): (r: string)
    ensures |r| <= |s|
    ensures r == [] || !IsSpace(r[|r| - 1])
  {
    if |s| > 0 && IsSpace(s[|s| - 1]) then TrimEnd(s[..|s| - 1]) else s
  }

  /** What `TrimEnd` removes: a whitespace suffix, leaving a prefix of `s`. */
  lemma {:induction false} TrimEndPrefix(s: string)
    ensures var r := TrimEnd(s); r == s[..|r|] && AllSpace(s[|r|..])
  {
    if |s| > 0 && IsSpace(s[|s| - 1]) {
      TrimEndPrefix(s[..|s| - 1]);
      var r := TrimEnd(s);
      assert s[..|s| - 1][|r|..] == s[|r|..|s| - 1];
    }
  }

  /** `s.trim()` / `s.strip()`: whitespace removed from both ends. */
  function Trim(s: string): (r: string)
    ensures IsTrimmed(r) && |r| <= |s|
  {
    var t := TrimStart(s);
    TrimEndPrefix(t);
    TrimEnd(t)
  }

  /** Trimming keeps a contiguous part of the string: it adds no character. */
  lemma TrimChars(s: string)
    ensures forall c :: c in Trim(s) ==> c in s
  {
    TrimStartSuffix(s);
    TrimEndPrefix(TrimStart(s));
  }

  /** Trimming leaves nothing exactly when the string is all whitespace. */
  lemma TrimEmptyIffAllSpace(s: string)
    ensures Trim(s) == [] <==> AllSpace(s)
  {
    var t := TrimStart(s);
    TrimStartSuffix(s);
    TrimEndPrefix(t);
    if t == [] {
      assert s[..|s|] == s;
    } else {
      assert t[0] == s[|s| - |t|];
    }
  }

  /** Trimming a string that is already trimmed changes nothing. */
  lemma TrimmedIsFixed(s: string)
    requires IsTrimmed(s)
    ensures Trim(s) == s
  {
  }

  /** Whitespace in front of a trimmed, non-empty string is exactly what trimming removes. */
  lemma {:induction false} TrimLeadingSpace(w: string, p: string)
    requires AllSpace(w) && IsTrimmed(p) && p != []
    ensures Trim(w + p) == p
  {
    if w == [] {
      assert w + p == p;
    } else {
      assert (w + p)[1..] == w[1..] + p;
      TrimLeadingSpace(w[1..], p);
    }
  }

  /** `s.split(sep)`: the pieces between occurrences of `sep`, always at least one. */
  function Split(s: string, sep: char): (r: seq<string>)
    ensures |r| >= 1
    ensures forall i :: 0 <= i < |r| ==> sep !in r[i]
    ensures sep in s ==> |r| >= 2
  {
    if s == [] then [[]]
    else
      var rest := Split(s[1..], sep);
      if s[0] == sep then [[]] + rest
      else [[s[0]] + rest[0]] + rest[1..]
  }

  /** `parts.join(sep)`. */
  function Join(parts: seq<string>, sep: string): string {
    if |parts| == 0 then []
    else if |parts| == 1 then parts[0]
    else parts[0] + sep + Join(parts[1..], sep)
  }

  /** The longest suffix of `s` that does not contain `sep`: the text after its last `sep`. */
  function AfterLast(s: string, sep: char): (r: string)
    ensures |r| <= |s| && sep !in r
  {
    if sep in s then AfterLast(s[1..], sep) else s
  }

  /** `AfterLast` is a suffix of `s`, and what precedes it, if anything, is a separator. */
  lemma {:induction false} AfterLastSuffix(s: string, sep: char)
    ensures var r := AfterLast(s, sep);
            r == s[|s| - |r|..] && (|r| < |s| ==> s[|s| - |r| - 1] == sep)
  {
    if sep in s {
      AfterLastSuffix(s[1..], sep);
      var r := AfterLast(s, sep);
      if |r| == |s| - 1 {
        assert s[0] == sep by {
          assert s[1..] == r;
        }
      }
    }
  }

  /** The last piece of a split is the text after the last separator. */
  lemma {:induction false} LastPieceAfterLast(s: string, sep: char)
    ensures Split(s, sep)[|Split(s, sep)| - 1] == AfterLast(s, sep)
  {
    if sep !in s {
      SplitNoSep(s, sep);
    } else {
      LastPieceAfterLast(s[1..], sep);
      if s[0] != sep {
        assert sep in s[1..];
      }
    }
  }

  /** Joining the pieces of a split with the separator gives back the string. */
  lemma {:induction false} JoinSplit(s: string, sep: char)
    ensures Join(Split(s, sep), [sep]) == s
  {
    if s != [] {
      var rest := Split(s[1..], sep);
      JoinSplit(s[1..], sep);
      assert s == [s[0]] + s[1..];
      if s[0] == sep {
        var r := [[]] + rest;
        assert r[0] == [] && r[1..] == rest;
        assert Join(r, [sep]) == [] + [sep] + Join(rest, [sep]);
      } else {
        var r := [[s[0]] + rest[0]] + rest[1..];
        assert r[0] == [s[0]] + rest[0] && r[1..] == rest[1..];
        if |rest| > 1 {
          assert Join(r, [sep]) == ([s[0]] + rest[0]) + [sep] + Join(rest[1..], [sep]);
          assert Join(rest, [sep]) == rest[0] + [sep] + Join(rest[1..], [sep]);
        }
      }
    }
  }

  /** A string without the separator splits into itself alone. */
  lemma {:induction false} SplitNoSep(a: string, sep: char)
    requires sep !in a
    ensures Split(a, sep) == [a]
  {
    if a != [] {
      assert sep !in a[1..];
      SplitNoSep(a[1..], sep);
      assert [a[0]] + a[1..] == a;
    }
  }

  /** A separator after a separator-free prefix cuts off exactly that prefix. */
  lemma {:induction false} SplitAtFirst(a: string, sep: char, b: string)
    requires sep !in a
    ensures Split(a + [sep] + b, sep) == [a] + Split(b, sep)
  {
    if a == [] {
      assert a + [sep] + b == [sep] + b;
      assert ([sep] + b)[1..] == b;
    } else {
      var s := a + [sep] + b;
      assert s[0] == a[0] && s[0] != sep && s[1..] == a[1..] + [sep] + b;
      SplitAtFirst(a[1..], sep, b);
      var rest := [a[1..]] + Split(b, sep);
      assert rest[0] == a[1..] && rest[1..] == Split(b, sep);
      assert [a[0]] + a[1..] == a;
    }
  }

  /**
   * The tag-list pipeline both sides use: trim every piece and drop the blank
   * ones (`.map(s => s.trim()).filter(Boolean)`, `[p.strip() for p in ... if p.strip()]`).
   */
  function CleanPieces(pieces: seq<string>): (r: seq<string>)
    ensures |r| <= |pieces|
    ensures forall i :: 0 <= i < |r| ==> r[i] != [] && IsTrimmed(r[i])
    ensures forall x :: x in r <==> exists i :: 0 <= i < |pieces| && x == Trim(pieces[i]) && x != []
  {
    if pieces == [] then []
    else
      var t := Trim(pieces[0]);
      var rest := CleanPieces(pieces[1..]);
      assert forall i :: 0 < i < |pieces| ==> pieces[i] == pieces[1..][i - 1];
      if t == [] then rest else [t] + rest
  }

  /** One piece: its trimmed text when that is not blank, nothing otherwise. */
  lemma CleanPiecesOne(p: string)
    ensures CleanPieces([p]) == if Trim(p) == [] then [] else [Trim(p)]
  {
    assert [p][1..] == [];
  }

  /** A character that no piece contains is in no cleaned entry either. */
  lemma {:induction false} CleanPiecesAvoid(pieces: seq<string>, c: char)
    requires forall i :: 0 <= i < |pieces| ==> c !in pieces[i]
    ensures forall i :: 0 <= i < |CleanPieces(pieces)| ==> c !in CleanPieces(pieces)[i]
  {
    if pieces != [] {
      TrimChars(pieces[0]);
      CleanPiecesAvoid(pieces[1..], c);
    }
  }

  /** Cleaning distributes over concatenation. */
  lemma {:induction false} CleanPiecesAppend(a: seq<string>, b: seq<string>)
    ensures CleanPieces(a + b) == CleanPieces(a) + CleanPieces(b)
  {
    if a != [] {
      assert (a + b)[0] == a[0] && (a + b)[1..] == a[1..] + b;
      CleanPiecesAppend(a[1..], b);
      var t := Trim(a[0]);
      var head: seq<string> := if t == [] then [] else [t];
      assert CleanPieces(a) == head + CleanPieces(a[1..]);
      assert CleanPieces(a + b) == head + CleanPieces(a[1..] + b);
    } else {
      assert a + b == b;
    }
  }

  lemma HeadTail<T>(s: seq<T>)
    requires s != []
    ensures [s[0]] + s[1..] == s
  {
  }

  /** Cleaning a list whose entries are already trimmed and non-empty keeps it as it is. */
  lemma {:induction false} CleanPiecesFixed(parts: seq<string>)
    requires forall i :: 0 <= i < |parts| ==> parts[i] != [] && IsTrimmed(parts[i])
    ensures CleanPieces(parts) == parts
  {
    if parts != [] {
      var tail := parts[1..];
      assert forall i :: 0 <= i < |tail| ==> tail[i] == parts[i + 1];
      TrimmedIsFixed(parts[0]);
      CleanPiecesFixed(tail);
      assert CleanPieces(parts) == [parts[0]] + tail;
      HeadTail(parts);
    }
  }

  /** ASCII lower-casing of one character. */
  function LowerChar(c: char): (r: char)
    ensures if 'A' <= c <= 'Z' then r as int == c as int + 32 else r == c
  {
    if 'A' <= c <= 'Z' then (c as int + 32) as char else c
  }

  /** `s.toLowerCase()` / `s.lower()` on ASCII letters. */
  function Lower(s: string): (r: string)
    ensures |r| == |s|
    ensures forall i :: 0 <= i < |s| ==> r[i] == LowerChar(s[i]) && !('A' <= r[i] <= 'Z')
  {
    seq(|s|, i requires 0 <= i < |s| => LowerChar(s[i]))
  }

  lemma LowerIdempotent(s: string)
    ensures Lower(Lower(s)) == Lower(s)
  {
    assert forall i :: 0 <= i < |s| ==> LowerChar(LowerChar(s[i])) == LowerChar(s[i]);
  }

  /** `sub` occurs in `s` at some position. */
  predicate IsInfix(sub: string, s: string)
    decreases |s|
  {
    sub <= s || (|s| > 0 && IsInfix(sub, s[1..]))
  }

  /** `sub` occupies the positions `i .. i + |sub|` of `s`. */
  ghost predicate OccursAt(sub: string, s: string, i: int) {
    0 <= i <= |s| - |sub| && s[i..i + |sub|] == sub
  }

  lemma SliceOfTail(s: string, i: nat, n: nat)
    requires i + n < |s|
    ensures s[1..][i..i + n] == s[i + 1..i + 1 + n]
  {
  }

  /** The recursive search agrees with the positional definition of a substring. */
  lemma {:induction false} IsInfixAt(sub: string, s: string)
    ensures IsInfix(sub, s) <==> exists i :: OccursAt(sub, s, i)
    decreases |s|
  {
    if IsInfix(sub, s) {
      if sub <= s {
        assert OccursAt(sub, s, 0);
      } else {
        IsInfixAt(sub, s[1..]);
        var i :| OccursAt(sub, s[1..], i);
        SliceOfTail(s, i, |sub|);
        assert OccursAt(sub, s, i + 1);
      }
    }
    if exists i :: OccursAt(sub, s, i) {
      var i :| OccursAt(sub, s, i);
      if i > 0 {
        SliceOfTail(s, i - 1, |sub|);
        assert OccursAt(sub, s[1..], i - 1);
        IsInfixAt(sub, s[1..]);
      } else {
        assert sub <= s;
      }
    }
  }

  /** A character matched by the regular-expression class `\w` (ASCII part). */
  predicate IsWordChar(c: char) {
    ('a' <= c <= 'z') || ('A' <= c <= 'Z') || ('0' <= c <= '9') || c == '_'
  }

  /** The length of the longest prefix of `s` made of word characters. */
  function WordRun(s: string): (n: nat)
    ensures n <= |s|
    ensures forall i :: 0 <= i < n ==> IsWordChar(s[i])
    ensures n == |s| || !IsWordChar(s[n])
  {
    if s == [] || !IsWordChar(s[0]) then 0 else 1 + WordRun(s[1..])
  }

  /** `re.findall(r"\w+", s)`: the maximal runs of word characters, left to right. */
  function Words(s: string): (r: seq<string>)
    ensures forall k :: 0 <= k < |r| ==> r[k] != [] && forall i :: 0 <= i < |r[k]| ==> IsWordChar(r[k][i])
  {
    if s == [] then []
    else if !IsWordChar(s[0]) then Words(s[1..])
    else
      var n := WordRun(s);
      [s[..n]] + Words(s[n..])
  }

  /** A run of word characters stops where the text gives way to a non-word character, whatever follows. */
  lemma {:induction false} WordRunStops(a: string, t: string)
    requires t == [] || !IsWordChar(t[0])
    ensures WordRun(a + t) == WordRun(a)
  {
    if a == [] {
      assert a + t == t;
    } else {
      assert (a + t)[0] == a[0] && (a + t)[1..] == a[1..] + t;
      if IsWordChar(a[0]) {
        WordRunStops(a[1..], t);
      }
    }
  }

  /** A non-empty run of word characters is one token, whole. */
  lemma WordsOfWord(w: string)
    requires w != [] && forall i :: 0 <= i < |w| ==> IsWordChar(w[i])
    ensures Words(w) == [w]
  {
    var n := WordRun(w);
    assert n == |w|;
    assert w[..n] == w && w[n..] == [];
  }

  /** Tokens never reach across a non-word character: the text on either side is tokenised apart. */
  lemma {:induction false} WordsSplitAt(a: string, c: char, b: string)
    requires !IsWordChar(c)
    ensures Words(a + [c] + b) == Words(a) + Words(b)
    decreases |a|
  {
    var s := a + [c] + b;
    if a == [] {
      assert s == [c] + b && s[1..] == b;
    } else if !IsWordChar(a[0]) {
      assert s[0] == a[0] && s[1..] == a[1..] + [c] + b;
      WordsSplitAt(a[1..], c, b);
    } else {
      assert s[0] == a[0];
      var m := WordRun(a);
      assert s == a + ([c] + b);
      WordRunStops(a, [c] + b);
      assert WordRun(s) == m;
      assert s[..m] == a[..m];
      assert s[m..] == a[m..] + [c] + b;
      WordsSplitAt(a[m..], c, b);
    }
  }

  /** For example, the prompt `calm focus` gives the tokens `calm` and `focus`. */
  lemma WordsExample()
    ensures Words("calm focus") == ["calm", "focus"]
  {
    var a, b := "calm", "focus";
    WordsOfWord(a);
    WordsOfWord(b);
    WordsSplitAt(a, ' ', b);
    assert a + [' '] + b == "calm focus";
  }

  /** The word characters of `s`, in order. */
  function WordChars(s: string): string {
    if s == [] then [] else (if IsWordChar(s[0]) then [s[0]] else []) + WordChars(s[1..])
  }

  function Concat(parts: seq<string>): string {
    if parts == [] then [] else parts[0] + Concat(parts[1..])
  }

  lemma {:induction false} WordCharsAllWord(s: string)
    requires forall i :: 0 <= i < |s| ==> IsWordChar(s[i])
    ensures WordChars(s) == s
  {
    if s != [] {
      WordCharsAllWord(s[1..]);
    }
  }

  lemma {:induction false} WordCharsAppend(a: string, b: string)
    ensures WordChars(a + b) == WordChars(a) + WordChars(b)
  {
    if a != [] {
      var head: string := if IsWordChar(a[0]) then [a[0]] else [];
      assert (a + b)[0] == a[0] && (a + b)[1..] == a[1..] + b;
      WordCharsAppend(a[1..], b);
      assert WordChars(a + b) == head + WordChars(a[1..] + b);
      assert WordChars(a) == head + WordChars(a[1..]);
    } else {
      assert a + b == b;
    }
  }

  /** Nothing is lost or invented: the tokens, run together, are the word characters of `s`. */
  lemma {:induction false} WordsCoverWordChars(s: string)
    ensures Concat(Words(s)) == WordChars(s)
  {
    if s != [] {
      if !IsWordChar(s[0]) {
        WordsCoverWordChars(s[1..]);
      } else {
        var n := WordRun(s);
        assert s == s[..n] + s[n..];
        WordsCoverWordChars(s[n..]);
        WordCharsAppend(s[..n], s[n..]);
        WordCharsAllWord(s[..n]);
        assert ([s[..n]] + Words(s[n..]))[1..] == Words(s[n..]);
      }
    }
  }
}
