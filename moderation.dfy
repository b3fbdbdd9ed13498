/** `ModerationDictionary`: the curse-word dictionary and the check of a comment's
    text against it. Words are what `String.split("\\W+")` leaves; `\W` is the
    ASCII class `[^a-zA-Z0-9_]`, so every other character separates words. */
module Moderation {
  import opened Base
  import opened Seqs

  /** `\w`: an ASCII letter, digit or underscore. */
  predicate IsWordChar(c: char)
  {
    ('a' <= c <= 'z') || ('A' <= c <= 'Z') || ('0' <= c <= '9') || c == '_'
  }

  predicate HasWordChar(s: string)
  {
    exists i :: 0 <= i < |s| && IsWordChar(s[i])
  }

  /** The length of the run of word characters that starts `s`. */
  function WordPrefixLength(s: string): (n: nat)
    ensures n <= |s|
    ensures forall i :: 0 <= i < n ==> IsWordChar(s[i])
    ensures n < |s| ==> !IsWordChar(s[n])
    decreases |s|
  {
    if s == [] || !IsWordChar(s[0]) then 0
    else
      var n := WordPrefixLength(s[1..]);
      assert forall i :: 0 < i <= n ==> s[i] == s[1..][i - 1];
      1 + n
  }

  /** The maximal runs of word characters of `s`, left to right. */
  function WordRuns(s: string): (r: seq<string>)
    decreases |s|
  {
    if s == [] then []
    else if !IsWordChar(s[0]) then WordRuns(s[1..])
    else
      var n := WordPrefixLength(s);
      [s[..n]] + WordRuns(s[n..])
  }

  /** The word characters of `s`, in order. */
  function WordChars(s: string): string
  {
    Filter(s, IsWordChar)
  }

  /** `text.split("\\W+")`: the text between maximal separator runs. A text that
      starts with a separator and still has a word gets a leading empty string;
      trailing empty strings are dropped; the empty text splits into one empty
      string. */
  function Split(text: string): (r: seq<string>)
  {
    if text == [] then [""]
    else (if !IsWordChar(text[0]) && HasWordChar(text) then [""] else []) + WordRuns(text)
  }

  /** Every run is a non-empty word, and the runs laid end to end are the text's
      word characters: splitting loses only separators. */
  lemma {:induction false} WordRunsAreTheWords(s: string)
    ensures forall k :: 0 <= k < |WordRuns(s)| ==> WordRuns(s)[k] != [] && !HasSeparator(WordRuns(s)[k])
    ensures Flatten(WordRuns(s)) == WordChars(s)
    decreases |s|
  {
    if s != [] {
      if !IsWordChar(s[0]) {
        WordRunsAreTheWords(s[1..]);
        assert WordChars(s) == WordChars(s[1..]);
      } else {
        var n := WordPrefixLength(s);
        WordRunsAreTheWords(s[n..]);
        WordCharsOfWord(s[..n]);
        FilterAppend(s[..n], s[n..], IsWordChar);
        assert s[..n] + s[n..] == s;
        assert WordRuns(s) == [s[..n]] + WordRuns(s[n..]);
        assert Flatten([s[..n]] + WordRuns(s[n..])) == s[..n] + Flatten(WordRuns(s[n..])) by {
          FlattenAppend([s[..n]], WordRuns(s[n..]));
        }
        forall k | 0 <= k < |WordRuns(s)| ensures WordRuns(s)[k] != [] && !HasSeparator(WordRuns(s)[k]) {
          if k > 0 {
            assert WordRuns(s)[k] == WordRuns(s[n..])[k - 1];
          }
        }
      }
    }
  }

  predicate HasSeparator(w: string)
  {
    exists i :: 0 <= i < |w| && !IsWordChar(w[i])
  }

  /** Proof helper: a word is its own word characters. */
  lemma {:induction false} WordCharsOfWord(w: string)
    requires forall i :: 0 <= i < |w| ==> IsWordChar(w[i])
    ensures WordChars(w) == w
    decreases |w|
  {
    if w != [] {
      WordCharsOfWord(w[1..]);
      assert WordChars(w) == [w[0]] + WordChars(w[1..]);
    }
  }

  /** Proof helper: no word character means no runs. */
  lemma {:induction false} NoWordNoRuns(s: string)
    requires !HasWordChar(s)
    ensures WordRuns(s) == []
    decreases |s|
  {
    if s != [] {
      assert !HasWordChar(s[1..]) by {
        forall i | 0 <= i < |s[1..]| ensures !IsWordChar(s[1..][i]) {
          assert s[1..][i] == s[i + 1];
        }
      }
      NoWordNoRuns(s[1..]);
    }
  }

  /** What the split gives: every piece but a leading empty string is a non-empty
      word; the words are the text's word characters in order; and a text made of
      separators only has no pieces at all. */
  lemma SplitShape(text: string)
    ensures var r := Split(text);
            (forall k :: 0 <= k < |r| ==> !HasSeparator(r[k]))
            && (forall k :: 0 < k < |r| ==> r[k] != [])
            && Flatten(r) == WordChars(text)
            && (text != [] && !HasWordChar(text) ==> r == [])
            && ("" in r <==> text == [] || (!IsWordChar(text[0]) && HasWordChar(text)))
  {
    WordRunsAreTheWords(text);
    if text != [] {
      var runs := WordRuns(text);
      var lead: seq<string> := if !IsWordChar(text[0]) && HasWordChar(text) then [""] else [];
      assert Split(text) == lead + runs;
      LeadingPieceKeepsRuns(lead, runs);
      if !HasWordChar(text) {
        NoWordNoRuns(text);
      }
    } else {
      assert Flatten([""]) == "" + Flatten([]);
    }
  }

  /** Proof helper: putting an empty piece (or nothing) in front of the runs keeps what they
      flatten to and their words; the empty string is then among the pieces exactly
      when it was put there. */
  lemma LeadingPieceKeepsRuns(lead: seq<string>, runs: seq<string>)
    requires lead == [] || lead == [""]
    requires forall k :: 0 <= k < |runs| ==> runs[k] != [] && !HasSeparator(runs[k])
    ensures Flatten(lead + runs) == Flatten(runs)
    ensures forall k :: 0 <= k < |lead + runs| ==> !HasSeparator((lead + runs)[k])
    ensures forall k :: 0 < k < |lead + runs| ==> (lead + runs)[k] != []
    ensures "" in lead + runs <==> lead != []
  {
    FlattenAppend(lead, runs);
    if lead != [] {
      assert Flatten(lead) == lead[0] + Flatten(lead[1..]);
    }
    forall k | |lead| <= k < |lead + runs| ensures (lead + runs)[k] == runs[k - |lead|] {
    }
    assert "" !in runs by {
      forall k | 0 <= k < |runs| ensures runs[k] != "" {
      }
    }
  }

  /** Proof helper: a word followed by a separator (or nothing) is the first run. */
  lemma {:induction false} WordPrefixOfWord(w: string, rest: string)
    requires forall i :: 0 <= i < |w| ==> IsWordChar(w[i])
    requires rest == [] || !IsWordChar(rest[0])
    ensures WordPrefixLength(w + rest) == |w|
    decreases |w|
  {
    if w != [] {
      assert (w + rest)[1..] == w[1..] + rest;
      WordPrefixOfWord(w[1..], rest);
    }
  }

  /** Proof helper. */
  lemma WordRunsOfWordThen(w: string, rest: string)
    requires w != [] && forall i :: 0 <= i < |w| ==> IsWordChar(w[i])
    requires rest == [] || !IsWordChar(rest[0])
    ensures WordRuns(w + rest) == [w] + WordRuns(rest)
  {
    WordPrefixOfWord(w, rest);
    assert (w + rest)[..|w|] == w && (w + rest)[|w|..] == rest;
  }

  /** Proof helper. */
  lemma WordRunsOfSeparatorThen(c: char, rest: string)
    requires !IsWordChar(c)
    ensures WordRuns([c] + rest) == WordRuns(rest)
  {
    assert ([c] + rest)[1..] == rest;
  }

  /** Proof helper: a text that starts with a word splits into its runs. */
  lemma SplitFromWord(text: string)
    requires text != [] && IsWordChar(text[0])
    ensures Split(text) == WordRuns(text)
  {
  }

  /** Proof helper. */
  lemma RunsOfYo()
    ensures WordRuns(" yo!") == ["yo"]
  {
    NoWordNoRuns("!");
    WordRunsOfWordThen("yo", "!");
    assert "yo" + "!" == "yo!";
    WordRunsOfSeparatorThen(' ', "yo!");
    assert [' '] + "yo!" == " yo!";
  }

  /** Proof helper. */
  lemma RunsAfterHi()
    ensures WordRuns(", yo!") == ["yo"]
  {
    RunsOfYo();
    WordRunsOfSeparatorThen(',', " yo!");
    assert [','] + " yo!" == ", yo!";
  }

  /** Proof helper. */
  lemma RunsOfSentence()
    ensures WordRuns("Hi, yo!") == ["Hi", "yo"]
  {
    RunsAfterHi();
    WordRunsOfWordThen("Hi", ", yo!");
    assert "Hi" + ", yo!" == "Hi, yo!";
  }

  /** Words separated by punctuation and a space come out alone. */
  lemma SplitSentence()
    ensures Split("Hi, yo!") == ["Hi", "yo"]
  {
    RunsOfSentence();
    SplitFromWord("Hi, yo!");
  }

  /** A leading separator gives an empty first piece. */
  lemma SplitLeadingSeparator()
    ensures Split(",a") == ["", "a"]
  {
    assert HasWordChar(",a") by { assert IsWordChar(",a"[1]); }
    NoWordNoRuns("");
    WordRunsOfWordThen("a", "");
    assert "a" + "" == "a";
    WordRunsOfSeparatorThen(',', "a");
    assert [','] + "a" == ",a";
  }

  /** Separators alone give no pieces; Cyrillic letters are separators. */
  lemma SplitSeparatorsOnly()
    ensures Split("!!!") == []
    ensures Split("плохо") == []
  {
    NoWordNoRuns("!!!");
    NoWordNoRuns("плохо");
  }

  /** `String.toLowerCase()` on the dictionary's words. A word holds only ASCII word
      characters, for which this is the whole mapping. */
  function ToLower(w: string): (r: string)
    ensures |r| == |w|
    ensures forall i :: 0 <= i < |w| ==> r[i] == (if 'A' <= w[i] <= 'Z' then (w[i] as int + 32) as char else w[i])
  {
    seq(|w|, i requires 0 <= i < |w| => if 'A' <= w[i] <= 'Z' then (w[i] as int + 32) as char else w[i])
  }

  /** `init`: the lower-cased pieces of every line of the dictionary file. */
  function BuildDictionary(lines: seq<string>): (words: set<string>)
    ensures forall w :: w in words <==> exists line, t :: line in lines && t in Split(line) && w == ToLower(t)
  {
    set line, t | line in lines && t in Split(line) :: ToLower(t)
  }

  /** `checkCurseWordsInComment` over a built dictionary: some piece of the text,
      as written (not lower-cased), is in it. */
  predicate ContainsCurseWord(words: set<string>, text: string)
  {
    exists t :: t in Split(text) && t in words
  }

  /** A text that is one word splits into that word. */
  lemma SplitOfWord(w: string)
    requires w != [] && forall i :: 0 <= i < |w| ==> IsWordChar(w[i])
    ensures Split(w) == [w] && WordRuns(w) == [w]
  {
    NoWordNoRuns("");
    WordRunsOfWordThen(w, "");
    assert w + "" == w;
    SplitFromWord(w);
  }

  /** A line holding one word gives that word, lower-cased. */
  lemma DictionaryOfOneWord(w: string)
    requires w != [] && forall i :: 0 <= i < |w| ==> IsWordChar(w[i])
    ensures BuildDictionary([w]) == {ToLower(w)}
  {
    SplitOfWord(w);
  }

  /** Proof helper. */
  lemma RunsOfSoBad()
    ensures WordRuns("so bad") == ["so", "bad"]
  {
    SplitOfWord("bad");
    WordRunsOfSeparatorThen(' ', "bad");
    assert [' '] + "bad" == " bad";
    WordRunsOfWordThen("so", " bad");
    assert "so" + " bad" == "so bad";
  }

  /** Proof helper. */
  lemma SplitSoBad()
    ensures Split("so bad") == ["so", "bad"]
  {
    RunsOfSoBad();
    SplitFromWord("so bad");
  }

  lemma DictionaryOfBad()
    ensures BuildDictionary(["bad"]) == {"bad"}
    ensures BuildDictionary(["BAD"]) == {"bad"}
  {
    LowerOfBad();
    DictionaryOfOneWord("bad");
    DictionaryOfOneWord("BAD");
  }

  /** Proof helper. */
  lemma LowerOfBad()
    ensures ToLower("bad") == "bad" && ToLower("BAD") == "bad"
  {
    var lower, upper := ToLower("bad"), ToLower("BAD");
    assert lower[0] == 'b' && lower[1] == 'a' && lower[2] == 'd';
    assert upper[0] == 'b' && upper[1] == 'a' && upper[2] == 'd';
  }

  /** Matching is case-sensitive on the comment's side: an upper-case spelling of a
      listed word passes, while an upper-case dictionary entry still catches the
      lower-case word. */
  lemma UpperCaseSlipsThrough()
    ensures ContainsCurseWord(BuildDictionary(["BAD"]), "so bad")
    ensures !ContainsCurseWord(BuildDictionary(["bad"]), "BAD")
  {
    UpperCaseEntryCatches();
    UpperCaseWordPasses();
  }

  /** Proof helper. */
  lemma UpperCaseEntryCatches()
    ensures ContainsCurseWord(BuildDictionary(["BAD"]), "so bad")
  {
    LowerOfBad();
    DictionaryOfOneWord("BAD");
    SplitSoBad();
    assert "bad" in Split("so bad") && "bad" in BuildDictionary(["BAD"]);
  }

  /** Proof helper. */
  lemma UpperCaseWordPasses()
    ensures !ContainsCurseWord(BuildDictionary(["bad"]), "BAD")
  {
    LowerOfBad();
    DictionaryOfOneWord("bad");
    SplitOfWord("BAD");
    assert "BAD"[0] != "bad"[0];
    assert forall t :: t in Split("BAD") ==> t == "BAD" && t !in BuildDictionary(["bad"]);
  }

  /** A blank line in the dictionary file puts the empty word in it, and then every
      text that starts with a separator and has a word is flagged. */
  lemma BlankLineFlagsLeadingSeparator(lines: seq<string>, text: string)
    requires "" in lines
    requires text != [] && !IsWordChar(text[0]) && HasWordChar(text)
    ensures ContainsCurseWord(BuildDictionary(lines), text)
  {
    assert "" in Split("");
    assert ToLower("") == "";
    assert "" in BuildDictionary(lines);
    assert Split(text)[0] == "";
  }

  /** The dictionary bean. `curseWords` stays null when the file cannot be read. */
  class ModerationDictionary {
    var curseWords: Option<set<string>>

    constructor()
      ensures curseWords == None
    {
      curseWords := None;
    }

    /** `init`: builds the dictionary from the file's lines; a read failure is
        logged and leaves the field as it was. */
    method Init(lines: Outcome<seq<string>>)
      modifies this
      ensures lines.Ok? ==> curseWords == Some(BuildDictionary(lines.value))
      ensures lines.Thrown? ==> curseWords == old(curseWords)
    {
      if lines.Ok? {
        curseWords := Some(BuildDictionary(lines.value));
      }
    }

    /** `checkCurseWordsInComment`: a null text, or a dictionary never built, is a
        NullPointerException. */
    function CheckCurseWordsInComment(text: Option<string>): (r: Outcome<bool>)
      reads this
      ensures r.Thrown? <==> text.None? || curseWords.None?
      ensures r.Thrown? ==> r.exception == NullPointer
      ensures r.Ok? ==> (r.value <==> exists t :: t in Split(text.value) && t in curseWords.value)
    {
      if text.None? || curseWords.None? then Thrown(NullPointer)
      else Ok(ContainsCurseWord(curseWords.value, text.value))
    }
  }
}
