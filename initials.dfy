/**
 Initials shown for a name: `getInitials`, which keeps the first character
 of the first two non-empty space-separated words and upper-cases them, and
 the letter rule of the profile badge, which looks at one- and two-word
 names only. Both rest on `split(" ")`, modelled here as `Split`.
 */
module Initials {

  /** `s.split(" ")`: the pieces between single spaces, in order. The empty
      string gives one empty piece, and two adjacent spaces give an empty
      piece between them. */
  function Split(s: string): (words: seq<string>)
    ensures |words| >= 1
    ensures forall w :: w in words ==> ' ' !in w
  {
    if s == [] then [[]]
    else
      var rest := Split(s[1..]);
      if s[0] == ' ' then [[]] + rest
      else [[s[0]] + rest[0]] + rest[1..]
  }

  /** `words.join(" ")`, the inverse of `Split`. */
  function Join(words: seq<string>): string
    requires |words| >= 1
  {
    if |words| == 1 then words[0] else words[0] + " " + Join(words[1..])
  }

  lemma JoinConsFirst(c: char, words: seq<string>)
    requires |words| >= 1
    ensures Join([[c] + words[0]] + words[1..]) == [c] + Join(words)
  {
  }

  /** Joining the pieces of a split gives back the string. */
  lemma {:induction false} JoinSplit(s: string)
    ensures Join(Split(s)) == s
  {
    if s != [] {
      var rest := Split(s[1..]);
      JoinSplit(s[1..]);
      if s[0] == ' ' {
        assert ([[]] + rest)[1..] == rest;
      } else {
        JoinConsFirst(s[0], rest);
      }
    }
  }

  lemma {:induction false} SplitPrefix(w: string, rest: string)
    requires ' ' !in w
    ensures Split(w + rest) == [w + Split(rest)[0]] + Split(rest)[1..]
  {
    if w != [] {
      var s := w + rest;
      assert s[0] == w[0] && w[0] != ' ';
      assert s[1..] == w[1..] + rest;
      SplitPrefix(w[1..], rest);
      var tail := Split(s[1..]);
      assert Split(s) == [[s[0]] + tail[0]] + tail[1..];
      assert tail[0] == w[1..] + Split(rest)[0] && tail[1..] == Split(rest)[1..];
      assert [w[0]] + (w[1..] + Split(rest)[0]) == w + Split(rest)[0];
    } else {
      assert w + rest == rest && w + Split(rest)[0] == Split(rest)[0];
      assert [Split(rest)[0]] + Split(rest)[1..] == Split(rest);
    }
  }

  /** Splitting a join of space-free words gives back the words. */
  lemma {:induction false} SplitJoin(words: seq<string>)
    requires |words| >= 1
    requires forall k :: 0 <= k < |words| ==> ' ' !in words[k]
    ensures Split(Join(words)) == words
  {
    if |words| == 1 {
      SplitPrefix(words[0], []);
      assert words[0] + [] == words[0];
    } else {
      var tail := Join(words[1..]);
      SplitJoin(words[1..]);
      assert words[0] + " " + tail == words[0] + (" " + tail);
      SplitPrefix(words[0], " " + tail);
      assert (" " + tail)[1..] == tail;
      assert words[0] + [] == words[0];
    }
  }

  /** `w.charAt(0)`: the first character, or "" for an empty word. */
  function CharAt0(w: string): (r: string)
    ensures |r| <= 1
    ensures w == [] ==> r == []
    ensures w != [] ==> r == [w[0]]
  {
    if w == [] then [] else [w[0]]
  }

  /** What the loop of `getInitials` would collect with no cap: the first
      character of every word, empty words contributing nothing. */
  function FirstLetters(words: seq<string>): string
  {
    if words == [] then []
    else FirstLetters(words[..|words| - 1]) + CharAt0(words[|words| - 1])
  }

  /** The non-empty words, in order. */
  function NonEmptyWords(words: seq<string>): (r: seq<string>)
    ensures forall k :: 0 <= k < |r| ==> r[k] != [] && r[k] in words
  {
    if words == [] then []
    else NonEmptyWords(words[..|words| - 1]) + (if words[|words| - 1] == [] then [] else [words[|words| - 1]])
  }

  /** The uncapped letters are exactly the heads of the non-empty words. */
  lemma {:induction false} FirstLettersAreHeads(words: seq<string>)
    ensures |FirstLetters(words)| == |NonEmptyWords(words)|
    ensures forall k :: 0 <= k < |FirstLetters(words)| ==> FirstLetters(words)[k] == NonEmptyWords(words)[k][0]
  {
    if words != [] {
      FirstLettersAreHeads(words[..|words| - 1]);
    }
  }

  /** The first two characters of a string, or all of it when shorter. */
  function TakeTwo(s: string): (r: string)
    ensures |r| <= 2 && r <= s
    ensures |s| <= 2 ==> r == s
  {
    if |s| <= 2 then s else s[..2]
  }

  /** The initials before upper-casing: the first characters of the first
      two non-empty words. */
  function InitialsOf(words: seq<string>): (r: string)
  {
    TakeTwo(FirstLetters(words))
  }

  /** `InitialsOf` in terms of the non-empty words: at most two letters,
      each the head of the non-empty word in the same position. */
  lemma InitialsAreHeadsOfFirstTwo(words: seq<string>)
    ensures |InitialsOf(words)| == if |NonEmptyWords(words)| < 2 then |NonEmptyWords(words)| else 2
    ensures forall k :: 0 <= k < |InitialsOf(words)| ==> InitialsOf(words)[k] == NonEmptyWords(words)[k][0]
  {
  }

  /** `toUpperCase` on one character, over ASCII letters. */
  function UpperChar(c: char): (u: char)
    ensures 'a' <= c <= 'z' ==> 'A' <= u <= 'Z' && u as int == c as int - 32
    ensures !('a' <= c <= 'z') ==> u == c
  {
    if 'a' <= c <= 'z' then (c as int - 32) as char else c
  }

  function ToUpper(s: string): (r: string)
    ensures |r| == |s|
    ensures forall k :: 0 <= k < |s| ==> r[k] == UpperChar(s[k])
  {
    seq(|s|, k requires 0 <= k < |s| => UpperChar(s[k]))
  }

  /** One step of the loop: append the word's first character while fewer
      than two are collected. The running value stays the capped prefix. */
  lemma InitialsStep(words: seq<string>, w: string)
    ensures InitialsOf(words + [w])
         == if |InitialsOf(words)| < 2 then InitialsOf(words) + CharAt0(w) else InitialsOf(words)
  {
  }

  /** `getInitials(inputString)`: split on spaces, keep the first character
      of each word while fewer than two are kept, upper-case the result. */
  method GetInitials(inputString: string) returns (initials: string)
    ensures initials == ToUpper(InitialsOf(Split(inputString)))
    ensures |initials| <= 2
  {
    var words := Split(inputString);
    var acc: string := "";
    var k := 0;
    while k < |words|
      invariant 0 <= k <= |words|
      invariant acc == InitialsOf(words[..k])
    {
      InitialsStep(words[..k], words[k]);
      assert words[..k + 1] == words[..k] + [words[k]];
      if |acc| < 2 {
        acc := acc + CharAt0(words[k]);
      }
      k := k + 1;
    }
    assert words[..k] == words;
    initials := ToUpper(acc);
  }

  lemma InitialsOfOneOrTwo(a: string, b: string)
    ensures InitialsOf([a]) == CharAt0(a)
    ensures InitialsOf([a, b]) == CharAt0(a) + CharAt0(b)
  {
    assert [a][..0] == [] && [a, b][..1] == [a];
    assert FirstLetters([a]) == FirstLetters([]) + CharAt0(a) == CharAt0(a);
    assert FirstLetters([a, b]) == FirstLetters([a]) + CharAt0(b);
  }

  lemma GetInitialsTwoWords()
    ensures ToUpper(InitialsOf(Split("Max Mustermann"))) == "MM"
  {
    var words := ["Max", "Mustermann"];
    assert words[1..] == ["Mustermann"];
    assert Join(words) == "Max Mustermann";
    SplitJoin(words);
    InitialsOfOneOrTwo("Max", "Mustermann");
    assert InitialsOf(words) == "MM";
    assert ToUpper("MM") == "MM";
  }

  lemma GetInitialsOneWordOrNone()
    ensures ToUpper(InitialsOf(Split("Max"))) == "M"
    ensures ToUpper(InitialsOf(Split(""))) == ""
  {
  }

  /** A JavaScript value as the profile-letter rule sees it: `w[0]` is a
      one-character string, or `undefined` on an empty word. */
  datatype JsValue = Str(s: string) | Undefined

  function Index0(w: string): (v: JsValue)
    ensures v.Undefined? <==> w == []
    ensures w != [] ==> v == Str([w[0]])
  {
    if w == [] then Undefined else Str([w[0]])
  }

  /** `a + b` as the badge shows it: `undefined` reads as "undefined" next
      to a string, and `undefined + undefined` is NaN. */
  function JsPlusText(a: JsValue, b: JsValue): string
  {
    match (a, b)
    case (Str(x), Str(y)) => x + y
    case (Undefined, Str(y)) => "undefined" + y
    case (Str(x), Undefined) => x + "undefined"
    case (Undefined, Undefined) => "NaN"
  }

  /** The letter rule of `setProfileLetters` as written: indexing `[0]` on
      the pieces of `name.split(" ")`. */
  function ProfileLettersAsWritten(name: string): (r: string)
    ensures |Split(name)| > 2 ==> r == []
  {
    var words := Split(name);
    if |words| == 2 then JsPlusText(Index0(words[0]), Index0(words[1]))
    else if |words| == 1 then JsPlusText(Index0(words[0]), Str(""))
    else JsPlusText(Str(""), Str(""))
  }

  /** With an empty piece the badge shows the text "undefined" or "NaN". */
  lemma ProfileLettersAsWrittenShowsUndefined()
    ensures ProfileLettersAsWritten("Max ") == "Mundefined"
    ensures ProfileLettersAsWritten("") == "undefined"
    ensures ProfileLettersAsWritten(" ") == "NaN"
  {
  }

  /** The profile-letter rule with `charAt(0)` in place of `[0]`: two words
      give two first letters, one word one letter, any other count "". */
  function ProfileLetters(name: string): (r: string)
    ensures |r| <= 2
    ensures |Split(name)| <= 2 ==> r == InitialsOf(Split(name))
    ensures |Split(name)| > 2 ==> r == []
  {
    var words := Split(name);
    InitialsOfOneOrTwo(words[0], if |words| == 2 then words[1] else []);
    assert |words| == 2 ==> words == [words[0], words[1]];
    assert |words| == 1 ==> words == [words[0]];
    if |words| == 2 then CharAt0(words[0]) + CharAt0(words[1])
    else if |words| == 1 then CharAt0(words[0])
    else []
  }

  /** Where every piece is non-empty, the corrected rule shows what the
      code as written shows. */
  lemma ProfileLettersAgreeOnNonEmptyWords(name: string)
    requires forall k :: 0 <= k < |Split(name)| ==> Split(name)[k] != []
    ensures ProfileLettersAsWritten(name) == ProfileLetters(name)
  {
  }
}
