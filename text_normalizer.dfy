/** The text normaliser applied to review text before keyword matching and
    before issue-term counting (preprocess_text): lower-case the text, drop
    every character that is not an ASCII letter, digit or whitespace, then
    collapse whitespace runs into single spaces with none at either end. */
module TextNormalizer {
  import opened Wrappers

  predicate IsAscii(s: string) {
    forall i :: 0 <= i < |s| ==> s[i] as int < 128
  }

  /** Review text as this model admits it: ASCII characters only. */
  type AsciiString = s: string | IsAscii(s)

  /** Python's whitespace test on ASCII characters: tab, line feed, vertical
      tab, form feed, carriage return, the four information separators
      (0x1C to 0x1F) and space. */
  predicate IsSpace(c: char) {
    (9 <= c as int <= 13) || (28 <= c as int <= 32)
  }

  predicate IsUpper(c: char) {
    'A' <= c <= 'Z'
  }

  predicate IsLowerAlnum(c: char) {
    'a' <= c <= 'z' || '0' <= c <= '9'
  }

  /** Survives the pattern [^a-zA-Z0-9\s]. */
  predicate IsKept(c: char) {
    IsUpper(c) || IsLowerAlnum(c) || IsSpace(c)
  }

  function Lower(c: char): char {
    if IsUpper(c) then (c as int + 32) as char else c
  }

  function LowerAll(s: string): string {
    seq(|s|, i requires 0 <= i < |s| => Lower(s[i]))
  }

  /** Removes every character the pattern [^a-zA-Z0-9\s] matches. */
  function StripSpecial(s: string): string {
    if s == [] then []
    else (if IsKept(s[0]) then [s[0]] else []) + StripSpecial(s[1..])
  }

  /** Length of the run of non-whitespace characters that starts s. */
  function WordLength(s: string): (n: nat)
    ensures n <= |s|
    ensures forall i :: 0 <= i < n ==> !IsSpace(s[i])
    ensures n < |s| ==> IsSpace(s[n])
  {
    if s == [] || IsSpace(s[0]) then 0 else 1 + WordLength(s[1..])
  }

  /** Python's str.split() with no argument: the maximal runs of
      non-whitespace characters, in order. */
  function Split(s: string): seq<string>
    decreases |s|
  {
    if s == [] then []
    else if IsSpace(s[0]) then Split(s[1..])
    else
      var n := WordLength(s);
      [s[..n]] + Split(s[n..])
  }

  /** Python's sep.join(parts). */
  function Join(sep: string, parts: seq<string>): string {
    if parts == [] then ""
    else if |parts| == 1 then parts[0]
    else parts[0] + sep + Join(sep, parts[1..])
  }

  /** A token as str.split() produces it: non-empty, no whitespace. */
  predicate IsToken(w: string) {
    w != [] && forall i :: 0 <= i < |w| ==> !IsSpace(w[i])
  }

  /** A token of normalised text. */
  predicate IsWord(w: string) {
    w != [] && forall i :: 0 <= i < |w| ==> IsLowerAlnum(w[i])
  }

  /** Normal form: lower-case letters, digits and single inner spaces. */
  predicate IsNormal(s: string) {
    && (forall i :: 0 <= i < |s| ==> IsLowerAlnum(s[i]) || s[i] == ' ')
    && (|s| > 0 ==> s[0] != ' ' && s[|s| - 1] != ' ')
    && (forall i :: 0 <= i < |s| - 1 ==> !(s[i] == ' ' && s[i + 1] == ' '))
  }

  /** preprocess_text: a missing value becomes the empty string; otherwise
      lower-case, strip special characters, collapse whitespace. */
  function Normalize(raw: Option<AsciiString>): (r: string)
    ensures raw.None? ==> r == ""
    ensures IsNormal(r)
  {
    match raw
    case None => ""
    case Some(text) =>
      CleanedIsLowerOrSpace(LowerAll(text));
      SplitGivesWords(StripSpecial(LowerAll(text)));
      JoinOfWordsIsNormal(Split(StripSpecial(LowerAll(text))));
      Join(" ", Split(StripSpecial(LowerAll(text))))
  }

  // ---------------------------------------------------------------------
  // Lemmas about the pieces

  lemma {:induction false} CleanedIsLowerOrSpace(s: string)
    requires forall i :: 0 <= i < |s| ==> !IsUpper(s[i])
    ensures forall i :: 0 <= i < |StripSpecial(s)| ==>
              IsLowerAlnum(StripSpecial(s)[i]) || IsSpace(StripSpecial(s)[i])
  {
    if s != [] {
      CleanedIsLowerOrSpace(s[1..]);
    }
  }

  lemma {:induction false} SplitGivesWords(s: string)
    requires forall i :: 0 <= i < |s| ==> IsLowerAlnum(s[i]) || IsSpace(s[i])
    ensures forall w :: w in Split(s) ==> IsWord(w)
    decreases |s|
  {
    if s == [] {
    } else if IsSpace(s[0]) {
      SplitGivesWords(s[1..]);
    } else {
      var n := WordLength(s);
      SplitGivesWords(s[n..]);
      assert IsWord(s[..n]);
    }
  }

  lemma {:induction false} JoinOfWordsIsNormal(ws: seq<string>)
    requires forall w :: w in ws ==> IsWord(w)
    ensures IsNormal(Join(" ", ws))
    ensures ws != [] ==> |Join(" ", ws)| > 0 && Join(" ", ws)[0] == ws[0][0]
  {
    if |ws| >= 2 {
      var w, rest := ws[0], Join(" ", ws[1..]);
      JoinOfWordsIsNormal(ws[1..]);
      assert ws[0] in ws && ws[1..][0] in ws[1..];
      assert IsWord(w) && IsWord(ws[1..][0]);
      assert rest[0] != ' ';
      var s := w + " " + rest;
      assert Join(" ", ws) == s;
      assert forall i :: 0 <= i < |s| ==> IsLowerAlnum(s[i]) || s[i] == ' ' by {
        forall i | 0 <= i < |s| ensures IsLowerAlnum(s[i]) || s[i] == ' ' {
          if i < |w| { assert s[i] == w[i]; }
          else if i > |w| { assert s[i] == rest[i - |w| - 1]; }
        }
      }
      forall i | 0 <= i < |s| - 1 ensures !(s[i] == ' ' && s[i + 1] == ' ') {
        if i < |w| { assert s[i] == w[i]; }
        else if i > |w| { assert s[i] == rest[i - |w| - 1] && s[i + 1] == rest[i - |w|]; }
        else { assert s[i + 1] == rest[0]; }
      }
      assert s[|s| - 1] == rest[|rest| - 1];
    } else if |ws| == 1 {
      assert ws[0] in ws;
      assert Join(" ", ws) == ws[0];
    }
  }

  /** Splitting normal text and joining the tokens with single spaces gives
      the text back. */
  lemma {:induction false} JoinSplitOfNormal(s: string)
    requires IsNormal(s)
    ensures Join(" ", Split(s)) == s
    decreases |s|
  {
    if s != [] {
      var n := WordLength(s);
      if n == |s| {
        WholeWordSplit(s);
      } else {
        var t := s[n + 1..];
        NormalAfterFirstWord(s, n);
        JoinSplitOfNormal(t);
        JoinCons(s[..n], Split(t));
        SplitAround(s, n);
      }
    }
  }

  /** Text without whitespace splits into itself. */
  lemma WholeWordSplit(s: string)
    requires s != [] && WordLength(s) == |s|
    ensures Split(s) == [s]
  {
    assert !IsSpace(s[0]);
    assert s[..|s|] == s && s[|s|..] == [];
  }

  /** Joining a word in front of a non-empty list puts one separator between. */
  lemma JoinCons(w: string, rest: seq<string>)
    requires rest != []
    ensures Join(" ", [w] + rest) == w + " " + Join(" ", rest)
  {
    assert ([w] + rest)[1..] == rest;
  }

  /** A string is its text before a space, the space, and its text after. */
  lemma SplitAround(s: string, n: nat)
    requires n < |s| && s[n] == ' '
    ensures s == s[..n] + " " + s[n + 1..]
  {
  }

  /** In normal text, the first word is followed by one space and normal,
      non-empty text whose tokens come next. */
  lemma NormalAfterFirstWord(s: string, n: nat)
    requires IsNormal(s) && s != []
    requires n == WordLength(s) && n < |s|
    ensures s[n] == ' ' && n + 1 < |s|
    ensures IsNormal(s[n + 1..])
    ensures Split(s) == [s[..n]] + Split(s[n + 1..])
    ensures Split(s[n + 1..]) != []
  {
    assert IsSpace(s[n]);
    assert s[n] == ' ';
    NormalAfterSpace(s, n + 1);
    SplitAfterSpace(s, n);
  }

  /** The text after a space of normal text is normal and non-empty. */
  lemma NormalAfterSpace(s: string, k: nat)
    requires IsNormal(s)
    requires 0 < k <= |s| && s[k - 1] == ' '
    ensures k < |s| && IsNormal(s[k..]) && !IsSpace(s[k])
  {
    var t := s[k..];
    assert forall i :: 0 <= i < |t| ==> t[i] == s[k + i];
    assert forall i :: 0 <= i < |t| ==> IsLowerAlnum(t[i]) || t[i] == ' ';
    assert t != [] && t[0] != ' ';
    forall i | 0 <= i < |t| - 1 ensures !(t[i] == ' ' && t[i + 1] == ' ') {
      assert t[i] == s[k + i] && t[i + 1] == s[k + i + 1];
    }
  }

  /** A first word followed by a space and a non-space: split yields the word
      and then the tokens of the rest. */
  lemma SplitAfterSpace(s: string, n: nat)
    requires s != [] && !IsSpace(s[0])
    requires n == WordLength(s) && n + 1 < |s| && IsSpace(s[n]) && !IsSpace(s[n + 1])
    ensures Split(s) == [s[..n]] + Split(s[n + 1..])
    ensures Split(s[n + 1..]) != []
  {
    var rest := s[n..];
    assert rest[0] == s[n];
    assert rest[1..] == s[n + 1..];
    assert Split(rest) == Split(s[n + 1..]);
    var t := s[n + 1..];
    assert t[0] == s[n + 1];
  }

  /** Joining tokens with single spaces and splitting gives the tokens back. */
  lemma {:induction false} SplitJoinOfWords(ws: seq<string>)
    requires forall w :: w in ws ==> IsToken(w)
    ensures Split(Join(" ", ws)) == ws
  {
    if ws == [] {
    } else {
      var w := ws[0];
      var s := Join(" ", ws);
      WordIsOneToken(w, if |ws| == 1 then "" else " " + Join(" ", ws[1..]));
      if |ws| == 1 {
        assert s == w + "";
      } else {
        SplitJoinOfWords(ws[1..]);
        var rest := Join(" ", ws[1..]);
        assert s == w + (" " + rest);
        assert s[|w|..] == " " + rest;
        assert (" " + rest)[1..] == rest;
      }
    }
  }

  /** A token followed by nothing or by whitespace is the first token. */
  lemma WordIsOneToken(w: string, tail: string)
    requires IsToken(w)
    requires tail != [] ==> IsSpace(tail[0])
    ensures WordLength(w + tail) == |w|
    ensures Split(w + tail) == [w] + Split(tail)
  {
    var s := w + tail;
    var n := WordLength(s);
    assert forall i :: 0 <= i < |w| ==> s[i] == w[i];
    assert tail != [] ==> s[|w|] == tail[0];
    assert n == |w|;
    assert s[..n] == w && s[n..] == tail;
  }

  lemma {:induction false} StripSpecialKeepsNormal(s: string)
    requires forall i :: 0 <= i < |s| ==> IsLowerAlnum(s[i]) || s[i] == ' '
    ensures StripSpecial(s) == s
  {
    if s != [] {
      StripSpecialKeepsNormal(s[1..]);
    }
  }

  /** Normal text is a fixed point of the normaliser. */
  lemma NormalIsFixpoint(s: string)
    requires IsNormal(s)
    ensures IsAscii(s)
    ensures Normalize(Some(s)) == s
  {
    assert LowerAll(s) == s;
    StripSpecialKeepsNormal(s);
    JoinSplitOfNormal(s);
  }

  /** preprocess_text is idempotent. */
  lemma NormalizeIdempotent(raw: Option<AsciiString>)
    ensures IsAscii(Normalize(raw))
    ensures Normalize(Some(Normalize(raw))) == Normalize(raw)
  {
    NormalIsFixpoint(Normalize(raw));
  }

  /** Normalising keeps exactly the tokens of the cleaned text: whitespace
      collapsing changes separators only. */
  lemma NormalizeKeepsTokens(text: AsciiString)
    ensures Split(Normalize(Some(text))) == Split(StripSpecial(LowerAll(text)))
  {
    var cleaned := StripSpecial(LowerAll(text));
    CleanedIsLowerOrSpace(LowerAll(text));
    SplitGivesWords(cleaned);
    assert forall w :: w in Split(cleaned) ==> IsToken(w);
    SplitJoinOfWords(Split(cleaned));
  }

  /** Joining ASCII parts with an ASCII separator gives ASCII text. */
  lemma {:induction false} JoinIsAscii(sep: string, parts: seq<AsciiString>)
    requires IsAscii(sep)
    ensures IsAscii(Join(sep, parts))
  {
    if |parts| >= 2 {
      JoinIsAscii(sep, parts[1..]);
      var rest := Join(sep, parts[1..]);
      assert Join(sep, parts) == parts[0] + sep + rest;
      assert forall i :: 0 <= i < |rest| ==> rest[i] as int < 128;
    }
  }
}
