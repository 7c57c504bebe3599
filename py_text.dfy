/** The Python string built-ins the text pipeline relies on, restricted to
    ASCII: `str.lower`, `str.translate` with the `string.punctuation` deletion
    table, `str.split(sep)`, `str.split()`, `sep.join` and the substring test
    `sub in s`. */
module PyText {

  datatype Option<T> = None | Some(value: T)

  /** Python's `string.punctuation`: the 32 ASCII punctuation characters. */
  const Punctuation: string := "!\"#$%&'()*+,-./:;<=>?@[\\]^_`{|}~"

  /** Membership in `Punctuation`, by code-point ranges. */
  predicate IsPunctuation(c: char) {
    '!' <= c <= '/' || ':' <= c <= '@' || '[' <= c <= '`' || '{' <= c <= '~'
  }

  /** The ranges of `IsPunctuation` are the 32 characters of `Punctuation`. */
  lemma PunctuationTable()
    ensures |Punctuation| == 32
    ensures forall i :: 0 <= i < |Punctuation| ==> IsPunctuation(Punctuation[i])
    ensures forall i, j :: 0 <= i < j < |Punctuation| ==> Punctuation[i] < Punctuation[j]
    ensures forall c :: IsPunctuation(c) <==> c in Punctuation
  {
  }

  predicate IsUpper(c: char) {
    'A' <= c <= 'Z'
  }

  /** The ASCII characters for which Python's `str.isspace` holds:
      space, \t \n \v \f \r and the separators \x1c to \x1f. */
  predicate IsSpace(c: char) {
    c == ' ' || '\t' <= c <= '\r' || '\U{1C}' <= c <= '\U{1F}'
  }

  function LowerChar(c: char): (r: char)
    ensures !IsUpper(r)
    ensures IsUpper(c) ==> r as int == c as int + 32
    ensures !IsUpper(c) ==> r == c
  {
    if IsUpper(c) then (c as int - 'A' as int + 'a' as int) as char else c
  }

  /** `s.lower()` on ASCII text. */
  function Lower(s: string): (r: string)
    ensures |r| == |s|
    ensures forall i :: 0 <= i < |s| ==> r[i] == LowerChar(s[i])
  {
    seq(|s|, i requires 0 <= i < |s| => LowerChar(s[i]))
  }

  /** Lower-casing twice is lower-casing once. */
  lemma LowerIdempotent(s: string)
    ensures Lower(Lower(s)) == Lower(s)
  {
    assert forall i :: 0 <= i < |s| ==> Lower(Lower(s))[i] == Lower(s)[i];
  }

  /** `s.translate(str.maketrans('', '', string.punctuation))`: every
      punctuation character is deleted, every other one kept in order. */
  function StripPunctuation(s: string): (r: string)
    ensures |r| <= |s|
    ensures forall c :: c in r <==> c in s && !IsPunctuation(c)
  {
    if s == [] then []
    else (if IsPunctuation(s[0]) then [] else [s[0]]) + StripPunctuation(s[1..])
  }

  /** Text made only of punctuation is deleted entirely. */
  lemma {:induction false} StripPunctuationOfPunctuation(s: string)
    requires forall c :: c in s ==> IsPunctuation(c)
    ensures StripPunctuation(s) == []
  {
    if s != [] {
      assert s[0] in s;
      StripPunctuationOfPunctuation(s[1..]);
    }
  }

  /** Deleting punctuation distributes over concatenation. */
  lemma {:induction false} StripPunctuationAppend(a: string, b: string)
    ensures StripPunctuation(a + b) == StripPunctuation(a) + StripPunctuation(b)
  {
    if a == [] {
      assert a + b == b;
    } else {
      assert (a + b)[0] == a[0];
      assert (a + b)[1..] == a[1..] + b;
      StripPunctuationAppend(a[1..], b);
    }
  }

  /** Text without punctuation is left unchanged. */
  lemma {:induction false} StripPunctuationOfText(s: string)
    requires forall c :: c in s ==> !IsPunctuation(c)
    ensures StripPunctuation(s) == s
  {
    if s != [] {
      assert s[0] in s;
      StripPunctuationOfText(s[1..]);
    }
  }

  /** A trailing punctuation character is deleted, the rest kept. */
  lemma StripTrailingPunctuation(head: string, mark: char)
    requires forall c :: c in head ==> !IsPunctuation(c)
    requires IsPunctuation(mark)
    ensures StripPunctuation(head + [mark]) == head
  {
    StripPunctuationAppend(head, [mark]);
    StripPunctuationOfText(head);
  }

  /** A suffix without punctuation is kept as it is. */
  lemma StripKeepsCleanSuffix(front: string, tail: string)
    requires forall c :: c in tail ==> !IsPunctuation(c)
    ensures StripPunctuation(front + tail) == StripPunctuation(front) + tail
  {
    StripPunctuationAppend(front, tail);
    StripPunctuationOfText(tail);
  }

  /** The normalisation both source files apply: lower-case, then delete
      punctuation. */
  function Clean(s: string): (r: string)
    ensures forall c :: c in r ==> !IsUpper(c) && !IsPunctuation(c)
  {
    StripPunctuation(Lower(s))
  }

  /** `sep` occurs in `s` starting at position `j`. */
  predicate OccursAt(s: string, sep: string, j: nat) {
    j + |sep| <= |s| && s[j..j + |sep|] == sep
  }

  /** `s.find(sep, from)`: the first occurrence of `sep` at or after `from`. */
  function FindFrom(s: string, sep: string, from: nat): (r: Option<nat>)
    decreases |s| - from
    ensures r.Some? ==> from <= r.value && OccursAt(s, sep, r.value)
    ensures r.Some? ==> forall j :: from <= j < r.value ==> !OccursAt(s, sep, j)
    ensures r.None? ==> forall j :: from <= j ==> !OccursAt(s, sep, j)
  {
    if from + |sep| > |s| then None
    else if s[from..from + |sep|] == sep then Some(from)
    else FindFrom(s, sep, from + 1)
  }

  /** Python's `sub in s`. */
  predicate Contains(s: string, sub: string)
    ensures Contains(s, sub) ==> |sub| <= |s|
    ensures sub == [] ==> Contains(s, sub)
  {
    FindFrom(s, sub, 0).Some?
  }

  lemma ContainsIff(s: string, sub: string)
    ensures Contains(s, sub) <==> exists j :: OccursAt(s, sub, j)
  {
  }

  /** `s.split(sep)` for a non-empty separator: the pieces between the
      successive leftmost non-overlapping occurrences of `sep`. */
  function Split(s: string, sep: string): (parts: seq<string>)
    requires |sep| > 0
    ensures |parts| >= 1
    decreases |s|
  {
    match FindFrom(s, sep, 0)
    case None => [s]
    case Some(i) => [s[..i]] + Split(s[i + |sep|..], sep)
  }

  /** `sep.join(parts)`. */
  function Join(parts: seq<string>, sep: string): string {
    if |parts| == 0 then ""
    else if |parts| == 1 then parts[0]
    else parts[0] + sep + Join(parts[1..], sep)
  }

  /** Splitting and joining with the same separator gives the text back. */
  lemma {:induction false} SplitJoin(s: string, sep: string)
    requires |sep| > 0
    ensures Join(Split(s, sep), sep) == s
    decreases |s|
  {
    var f := FindFrom(s, sep, 0);
    if f.Some? {
      var i := f.value;
      var rest := s[i + |sep|..];
      var tail := Split(rest, sep);
      SplitJoin(rest, sep);
      assert Split(s, sep) == [s[..i]] + tail;
      assert ([s[..i]] + tail)[1..] == tail;
      assert Join(Split(s, sep), sep) == s[..i] + sep + rest;
      assert s == s[..i] + s[i..i + |sep|] + rest;
    }
  }

  /** An occurrence in a prefix is an occurrence in the whole text. */
  lemma OccursInPrefix(s: string, n: nat, sep: string, j: nat)
    requires n <= |s| && OccursAt(s[..n], sep, j)
    ensures OccursAt(s, sep, j)
  {
    assert s[..n][j..j + |sep|] == s[j..j + |sep|];
  }

  /** The first piece of a split, followed by all but the last character of
      the separator, does not contain the separator. */
  lemma LeftmostCut(s: string, sep: string, i: nat)
    requires |sep| > 0 && FindFrom(s, sep, 0) == Some(i)
    ensures !Contains(s[..i] + sep[..|sep| - 1], sep)
  {
    var m := |sep|;
    assert sep == s[i..i + m];
    assert sep[..m - 1] == s[i..i + m - 1];
    assert s[..i] + s[i..i + m - 1] == s[..i + m - 1];
    var probe := s[..i + m - 1];
    ContainsIff(probe, sep);
    forall j: nat | OccursAt(probe, sep, j) ensures false {
      OccursInPrefix(s, i + m - 1, sep, j);
    }
  }

  /** Every cut is leftmost: no piece but the last, followed by all but the
      last character of the separator, contains the separator. So no
      occurrence starts inside a piece and runs into the separator after it. */
  lemma {:induction false} SplitLeftmost(s: string, sep: string)
    requires |sep| > 0
    ensures forall k :: 0 <= k < |Split(s, sep)| - 1 ==>
      !Contains(Split(s, sep)[k] + sep[..|sep| - 1], sep)
    decreases |s|
  {
    match FindFrom(s, sep, 0)
    case None =>
    case Some(i) =>
      var rest := s[i + |sep|..];
      SplitLeftmost(rest, sep);
      LeftmostCut(s, sep, i);
      var parts := Split(s, sep);
      assert parts == [s[..i]] + Split(rest, sep);
  }

  /** Text that does not contain the separator splits into itself. */
  lemma SplitOfTextWithoutSeparator(s: string, sep: string)
    requires |sep| > 0 && !Contains(s, sep)
    ensures Split(s, sep) == [s]
  {
  }

  /** Text without the separator's first character splits into itself. */
  lemma SplitWithoutSeparator(s: string, sep: string)
    requires |sep| > 0 && sep[0] !in s
    ensures Split(s, sep) == [s]
  {
  }

  /** No piece of a split contains the separator. */
  lemma {:induction false} SplitPartsLackSeparator(s: string, sep: string)
    requires |sep| > 0
    ensures forall p :: p in Split(s, sep) ==> !Contains(p, sep)
    decreases |s|
  {
    match FindFrom(s, sep, 0)
    case None =>
      ContainsIff(s, sep);
    case Some(i) =>
      var head := s[..i];
      SplitPartsLackSeparator(s[i + |sep|..], sep);
      ContainsIff(head, sep);
      forall j: nat | OccursAt(head, sep, j)
        ensures false
      {
        assert head[j..j + |sep|] == s[j..j + |sep|];
        assert OccursAt(s, sep, j);
      }
  }

  /** Every character of a piece of a split is a character of the text. */
  lemma {:induction false} SplitPartsChars(s: string, sep: string)
    requires |sep| > 0
    ensures forall p, c :: p in Split(s, sep) && c in p ==> c in s
    decreases |s|
  {
    match FindFrom(s, sep, 0)
    case None =>
    case Some(i) =>
      var rest := s[i + |sep|..];
      SplitPartsChars(rest, sep);
      assert Split(s, sep) == [s[..i]] + Split(rest, sep);
      forall p, c | p in Split(s, sep) && c in p ensures c in s {
        if p == s[..i] {
          var k :| 0 <= k < i && s[..i][k] == c;
          assert s[k] == c;
        } else {
          var k :| 0 <= k < |rest| && rest[k] == c;
          assert s[i + |sep| + k] == c;
        }
      }
  }

  /** The number of occurrences of `c` in `s`. */
  function CountChar(s: string, c: char): nat {
    if s == [] then 0 else (if s[0] == c then 1 else 0) + CountChar(s[1..], c)
  }

  lemma {:induction false} CountCharAppend(a: string, b: string, c: char)
    ensures CountChar(a + b, c) == CountChar(a, c) + CountChar(b, c)
  {
    if a == [] {
      assert a + b == b;
    } else {
      assert (a + b)[0] == a[0];
      assert (a + b)[1..] == a[1..] + b;
      CountCharAppend(a[1..], b, c);
    }
  }

  lemma {:induction false} CountCharAbsent(s: string, c: char)
    requires forall k :: 0 <= k < |s| ==> s[k] != c
    ensures CountChar(s, c) == 0
  {
    if s != [] {
      CountCharAbsent(s[1..], c);
    }
  }

  /** Splitting on a one-character separator yields one more piece than
      there are occurrences of that character, empty pieces included. */
  lemma {:induction false} SplitCharCount(s: string, c: char)
    ensures |Split(s, [c])| == CountChar(s, c) + 1
    decreases |s|
  {
    match FindFrom(s, [c], 0)
    case None =>
      forall k | 0 <= k < |s| ensures s[k] != c {
        assert !OccursAt(s, [c], k);
      }
      CountCharAbsent(s, c);
    case Some(i) =>
      var rest := s[i + 1..];
      SplitCharCount(rest, c);
      forall k | 0 <= k < i ensures s[..i][k] != c {
        assert !OccursAt(s, [c], k);
      }
      CountCharAbsent(s[..i], c);
      assert s == s[..i] + [c] + rest;
      CountCharAppend(s[..i] + [c], rest, c);
      CountCharAppend(s[..i], [c], c);
  }

  /** The length of the leading run of non-whitespace characters. */
  function WordLength(s: string): (n: nat)
    ensures n <= |s|
    ensures forall k :: 0 <= k < n ==> !IsSpace(s[k])
    ensures n < |s| ==> IsSpace(s[n])
  {
    if s == [] || IsSpace(s[0]) then 0 else 1 + WordLength(s[1..])
  }

  /** `s.split()` without argument: the maximal runs of non-whitespace
      characters, in order; leading, trailing and repeated whitespace
      yields no empty word. */
  function Words(s: string): (r: seq<string>)
    ensures 2 * |r| <= |s| + 1
    decreases |s|
  {
    if s == [] then []
    else if IsSpace(s[0]) then Words(s[1..])
    else
      var n := WordLength(s);
      [s[..n]] + Words(s[n..])
  }

  /** A word followed by the end of the text or by whitespace is the
      leading word. */
  lemma {:induction false} WordLengthOfWord(w: string, rest: string)
    requires forall k :: 0 <= k < |w| ==> !IsSpace(w[k])
    requires rest == [] || IsSpace(rest[0])
    ensures WordLength(w + rest) == |w|
  {
    if w == [] {
      assert w + rest == rest;
    } else {
      assert (w + rest)[0] == w[0];
      assert (w + rest)[1..] == w[1..] + rest;
      WordLengthOfWord(w[1..], rest);
    }
  }

  /** `split()` breaks text exactly at whitespace: non-empty words without
      whitespace, joined by single spaces, split back into themselves. */
  lemma {:induction false} WordsOfJoin(ws: seq<string>)
    requires forall k :: 0 <= k < |ws| ==> |ws[k]| > 0
    requires forall k, j :: 0 <= k < |ws| && 0 <= j < |ws[k]| ==> !IsSpace(ws[k][j])
    ensures Words(Join(ws, " ")) == ws
  {
    if |ws| == 0 {
    } else if |ws| == 1 {
      var w := ws[0];
      WordLengthOfWord(w, []);
      assert w + [] == w;
      assert w[|w|..] == [];
      assert w[..|w|] == w;
    } else {
      var w := ws[0];
      var tail := Join(ws[1..], " ");
      var s := w + " " + tail;
      assert Join(ws, " ") == s;
      assert s == w + (" " + tail);
      WordLengthOfWord(w, " " + tail);
      assert s[0] == w[0];
      assert s[..|w|] == w;
      assert s[|w|..] == " " + tail;
      assert (" " + tail)[1..] == tail;
      WordsOfJoin(ws[1..]);
      assert ws == [w] + ws[1..];
    }
  }

  /** A word followed by the end of the text or by whitespace is the first
      word. */
  lemma WordsOfWordThen(w: string, rest: string)
    requires |w| > 0 && forall k :: 0 <= k < |w| ==> !IsSpace(w[k])
    requires rest == [] || IsSpace(rest[0])
    ensures Words(w + rest) == [w] + Words(rest)
  {
    WordLengthOfWord(w, rest);
    var t := w + rest;
    assert t[0] == w[0];
    assert t[..|w|] == w && t[|w|..] == rest;
  }

  /** Leading whitespace yields no word. */
  lemma WordsOfSpaceThen(c: char, rest: string)
    requires IsSpace(c)
    ensures Words([c] + rest) == Words(rest)
  {
    assert ([c] + rest)[1..] == rest;
  }

  /** Any whitespace character separates words: the words on its two sides
      never merge. */
  lemma {:induction false} WordsSpaceAppend(a: string, c: char, b: string)
    requires IsSpace(c)
    ensures Words(a + [c] + b) == Words(a) + Words(b)
    decreases |a|
  {
    if a == [] {
      assert a + [c] + b == [c] + b;
      WordsOfSpaceThen(c, b);
    } else if IsSpace(a[0]) {
      var tail := a[1..];
      assert a == [a[0]] + tail;
      assert a + [c] + b == [a[0]] + (tail + [c] + b);
      WordsOfSpaceThen(a[0], tail);
      WordsOfSpaceThen(a[0], tail + [c] + b);
      WordsSpaceAppend(tail, c, b);
    } else {
      var n := WordLength(a);
      var w, tail := a[..n], a[n..];
      assert a == w + tail;
      assert a + [c] + b == w + (tail + [c] + b);
      WordsOfWordThen(w, tail);
      WordsOfWordThen(w, tail + [c] + b);
      WordsSpaceAppend(tail, c, b);
    }
  }

  /** Text made only of whitespace has no words. */
  lemma {:induction false} WordsOfWhitespace(s: string)
    requires forall c :: c in s ==> IsSpace(c)
    ensures Words(s) == []
    decreases |s|
  {
    if s != [] {
      assert s[0] in s;
      WordsOfWhitespace(s[1..]);
    }
  }

  /** Every word is non-empty, free of whitespace and made of characters
      of the input. */
  lemma {:induction false} WordsShape(s: string)
    ensures forall w :: w in Words(s) ==> |w| > 0
    ensures forall w, c :: w in Words(s) && c in w ==> c in s && !IsSpace(c)
    decreases |s|
  {
    if s == [] {
    } else if IsSpace(s[0]) {
      WordsShape(s[1..]);
    } else {
      var n := WordLength(s);
      WordsShape(s[n..]);
      assert Words(s) == [s[..n]] + Words(s[n..]);
      forall c | c in s[..n] ensures c in s && !IsSpace(c) {
        var k :| 0 <= k < n && s[..n][k] == c;
      }
    }
  }

  /** A word of cleaned text: non-empty, with no whitespace, no ASCII
      punctuation and no upper-case letter. */
  predicate IsCleanWord(w: string) {
    |w| > 0 && forall c :: c in w ==> !IsSpace(c) && !IsPunctuation(c) && !IsUpper(c)
  }

  /** The words of text without punctuation and upper case are clean words. */
  lemma WordsOfCleanText(s: string)
    requires forall c :: c in s ==> !IsPunctuation(c) && !IsUpper(c)
    ensures forall w :: w in Words(s) ==> IsCleanWord(w)
  {
  }

  /** The concatenation of all strings in `parts`. */
  function Concat(parts: seq<string>): string {
    if parts == [] then "" else parts[0] + Concat(parts[1..])
  }

  /** `s` with every whitespace character removed. */
  function RemoveSpaces(s: string): string {
    if s == [] then "" else (if IsSpace(s[0]) then "" else [s[0]]) + RemoveSpaces(s[1..])
  }

  lemma {:induction false} RemoveSpacesAppend(a: string, b: string)
    ensures RemoveSpaces(a + b) == RemoveSpaces(a) + RemoveSpaces(b)
  {
    if a == [] {
      assert a + b == b;
    } else {
      assert (a + b)[0] == a[0];
      assert (a + b)[1..] == a[1..] + b;
      RemoveSpacesAppend(a[1..], b);
    }
  }

  lemma {:induction false} RemoveSpacesOfWord(w: string)
    requires forall k :: 0 <= k < |w| ==> !IsSpace(w[k])
    ensures RemoveSpaces(w) == w
  {
    if w != [] {
      RemoveSpacesOfWord(w[1..]);
    }
  }

  /** The words of `s`, put back together, are `s` without its whitespace:
      splitting loses nothing but whitespace. */
  lemma {:induction false} WordsConcat(s: string)
    ensures Concat(Words(s)) == RemoveSpaces(s)
    decreases |s|
  {
    if s == [] {
    } else if IsSpace(s[0]) {
      WordsConcat(s[1..]);
    } else {
      var n := WordLength(s);
      WordsConcat(s[n..]);
      assert Words(s) == [s[..n]] + Words(s[n..]);
      assert s == s[..n] + s[n..];
      RemoveSpacesAppend(s[..n], s[n..]);
      RemoveSpacesOfWord(s[..n]);
    }
  }
}
