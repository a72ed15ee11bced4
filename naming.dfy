/**
  Names derived from a resource type such as `aws_lambda_function`: the
  plural guesses matched against operation names, and the name of the
  generated list function.
 */
module Naming {
  import opened Text

  const ResourcePrefix: string := "aws_"

  /** The `_`-separated tokens of a resource type once `aws_` is trimmed. */
  function Tokens(rType: string): (r: seq<string>)
    ensures |r| >= 1
  {
    Split(TrimPrefix(rType, ResourcePrefix), '_')
  }

  /** For each start index i, the tokens from i on run together. */
  function SuffixWords(tokens: seq<string>): (r: seq<string>)
    ensures |r| == |tokens|
  {
    seq(|tokens|, i requires 0 <= i < |tokens| => Concat(tokens[i..]))
  }

  /** The guesses for one word: `+s`, `+es`, and `y` replaced by `ies` when it ends in `y`. */
  function PluralsOfWord(w: string): seq<string>
  {
    [w + "s", w + "es"] + (if HasSuffix(w, "y") then [TrimSuffix(w, "y") + "ies"] else [])
  }

  function PluralsOfWords(ws: seq<string>): seq<string>
    decreases |ws|
  {
    if |ws| == 0 then [] else PluralsOfWord(ws[0]) + PluralsOfWords(ws[1..])
  }

  /** `pluralizeListFunctionCandidateNames`. */
  function PluralCandidates(rType: string): seq<string>
  {
    PluralsOfWords(SuffixWords(Tokens(rType)))
  }

  /** The number of words that end in `y`. */
  function CountYWords(ws: seq<string>): nat
    decreases |ws|
  {
    if |ws| == 0 then 0 else (if HasSuffix(ws[0], "y") then 1 else 0) + CountYWords(ws[1..])
  }

  /** `p` is one of the guesses for the word `w`. */
  predicate IsPluralOf(p: string, w: string)
  {
    p == w + "s" || p == w + "es" || (HasSuffix(w, "y") && p == TrimSuffix(w, "y") + "ies")
  }

  /** `TypeToOpName`: `aws_` trimmed, every token title-cased, the separators dropped. */
  function TypeToOpName(rType: string): string
  {
    Concat(Split(Title(Join(Tokens(rType), " ")), ' '))
  }

  /** A token with its first letter upper-cased. */
  function Capitalize(tok: string): string
  {
    if |tok| == 0 then "" else [UpperChar(tok[0])] + tok[1..]
  }

  function CapitalizeAll(toks: seq<string>): (r: seq<string>)
    ensures |r| == |toks|
  {
    seq(|toks|, i requires 0 <= i < |toks| => Capitalize(toks[i]))
  }

  // ---------------------------------------------------------------------------
  // Plural guesses

  lemma {:induction false} PluralsOfWordsAppend(a: seq<string>, b: seq<string>)
    ensures PluralsOfWords(a + b) == PluralsOfWords(a) + PluralsOfWords(b)
    ensures CountYWords(a + b) == CountYWords(a) + CountYWords(b)
    decreases |a|
  {
    if |a| == 0 {
      assert a + b == b;
    } else {
      assert (a + b)[1..] == a[1..] + b;
      PluralsOfWordsAppend(a[1..], b);
    }
  }

  lemma {:induction false} PluralsOfWordsLength(ws: seq<string>)
    ensures |PluralsOfWords(ws)| == 2 * |ws| + CountYWords(ws)
    decreases |ws|
  {
    if |ws| > 0 { PluralsOfWordsLength(ws[1..]); }
  }

  lemma {:induction false} PluralsOfWordsMembers(ws: seq<string>, p: string)
    ensures p in PluralsOfWords(ws) <==> exists i :: 0 <= i < |ws| && IsPluralOf(p, ws[i])
    decreases |ws|
  {
    if |ws| > 0 {
      PluralsOfWordsMembers(ws[1..], p);
      if p in PluralsOfWords(ws[1..]) {
        var i :| 0 <= i < |ws[1..]| && IsPluralOf(p, ws[1..][i]);
        assert IsPluralOf(p, ws[i + 1]);
      }
      if exists i :: 0 <= i < |ws| && IsPluralOf(p, ws[i]) {
        var i :| 0 <= i < |ws| && IsPluralOf(p, ws[i]);
        if i > 0 { assert IsPluralOf(p, ws[1..][i - 1]); }
      }
    }
  }

  /**
    The guesses have two entries per token, plus one per word that ends in `y`.
   */
  lemma PluralCandidatesLength(rType: string)
    ensures |PluralCandidates(rType)| == 2 * |Tokens(rType)| + CountYWords(SuffixWords(Tokens(rType)))
  {
    PluralsOfWordsLength(SuffixWords(Tokens(rType)));
  }

  /**
    A string is a guess exactly when it is `+s`, `+es` or `ies` form of the
    tokens joined from some start index on.
   */
  lemma PluralCandidatesMembers(rType: string, p: string)
    ensures p in PluralCandidates(rType) <==>
      exists i :: 0 <= i < |Tokens(rType)| && IsPluralOf(p, Concat(Tokens(rType)[i..]))
  {
    var ws := SuffixWords(Tokens(rType));
    PluralsOfWordsMembers(ws, p);
    if exists i :: 0 <= i < |Tokens(rType)| && IsPluralOf(p, Concat(Tokens(rType)[i..])) {
      var i :| 0 <= i < |Tokens(rType)| && IsPluralOf(p, Concat(Tokens(rType)[i..]));
      assert IsPluralOf(p, ws[i]);
    }
  }

  /**
    The guesses come in blocks, one per start index in increasing order: the
    block of the word starting at token i sits after 2*i + (y-words before i)
    entries.
   */
  lemma PluralCandidatesBlock(rType: string, i: nat)
    requires i < |Tokens(rType)|
    ensures var ws := SuffixWords(Tokens(rType));
      var offset := 2 * i + CountYWords(ws[..i]);
      && offset + |PluralsOfWord(ws[i])| <= |PluralCandidates(rType)|
      && PluralCandidates(rType)[offset..offset + |PluralsOfWord(ws[i])|] == PluralsOfWord(ws[i])
  {
    var ws := SuffixWords(Tokens(rType));
    assert ws == ws[..i] + [ws[i]] + ws[i + 1..];
    PluralsOfWordsAppend(ws[..i] + [ws[i]], ws[i + 1..]);
    PluralsOfWordsAppend(ws[..i], [ws[i]]);
    PluralsOfWordsLength(ws[..i]);
    assert PluralsOfWords([ws[i]]) == PluralsOfWord(ws[i]);
  }

  // ---------------------------------------------------------------------------
  // The list function's name

  lemma {:induction false} TitleKeepsOutUnderscore(prev: char, s: string)
    requires '_' !in s
    ensures '_' !in TitleAfter(prev, s)
    decreases |s|
  {
    if |s| > 0 {
      assert s[0] != '_';
      TitleKeepsOutUnderscore(s[0], s[1..]);
    }
  }

  /** For every resource type, the function name holds neither `_` nor a space. */
  lemma TypeToOpNameHasNoSeparators(rType: string)
    ensures '_' !in TypeToOpName(rType) && ' ' !in TypeToOpName(rType)
  {
    var toks := Tokens(rType);
    var joined := Join(toks, " ");
    SplitPiecesAvoidSeparator(TrimPrefix(rType, ResourcePrefix), '_');
    if '_' in joined { JoinChars(toks, " ", '_'); }
    var titled := Title(joined);
    TitleKeepsOutUnderscore(' ', joined);
    var pieces := Split(titled, ' ');
    SplitPiecesAvoidSeparator(titled, ' ');
    SplitPiecesFromString(titled, ' ');
    if '_' in Concat(pieces) { JoinChars(pieces, "", '_'); }
    if ' ' in Concat(pieces) { JoinChars(pieces, "", ' '); }
  }

  /** A title pass over characters none of which separates words changes nothing. */
  lemma {:induction false} TitleAfterWordChars(prev: char, s: string)
    requires !IsSeparator(prev)
    requires forall c :: c in s ==> IsAsciiAlnum(c)
    ensures TitleAfter(prev, s) == s
    decreases |s|
  {
    if |s| > 0 {
      assert s[0] in s;
      TitleAfterWordChars(s[0], s[1..]);
    }
  }

  lemma {:induction false} TitleAfterAppend(prev: char, a: string, b: string)
    requires |a| > 0
    ensures TitleAfter(prev, a + b) == TitleAfter(prev, a) + TitleAfter(a[|a| - 1], b)
    decreases |a|
  {
    assert (a + b)[1..] == a[1..] + b;
    if |a| > 1 {
      TitleAfterAppend(a[0], a[1..], b);
    }
  }

  /** After a separator, a title pass over tokens joined by spaces capitalizes each token. */
  lemma {:induction false} TitleOfSpacedTokens(prev: char, toks: seq<string>)
    requires IsSeparator(prev)
    requires |toks| >= 1
    requires forall t :: t in toks ==> |t| > 0 && forall c :: c in t ==> IsAsciiAlnum(c)
    ensures TitleAfter(prev, Join(toks, " ")) == Join(CapitalizeAll(toks), " ")
    decreases |toks|
  {
    var t := toks[0];
    assert t in toks;
    assert TitleAfter(prev, t) == Capitalize(t) by {
      TitleAfterWordChars(t[0], t[1..]);
    }
    if |toks| > 1 {
      var rest := Join(toks[1..], " ");
      TitleAfterAppend(prev, t, " " + rest);
      assert t[|t| - 1] in t;
      assert (" " + rest)[1..] == rest;
      TitleOfSpacedTokens(' ', toks[1..]);
      assert CapitalizeAll(toks)[1..] == CapitalizeAll(toks[1..]);
      assert t + " " + rest == t + (" " + rest);
    }
  }

  /**
    When every token is a non-empty run of ASCII letters and digits, the
    function name is the tokens, each with its first letter upper-cased,
    run together.
   */
  lemma TypeToOpNameCapitalizesTokens(rType: string)
    requires forall t :: t in Tokens(rType) ==> |t| > 0 && forall c :: c in t ==> IsAsciiAlnum(c)
    ensures TypeToOpName(rType) == Concat(CapitalizeAll(Tokens(rType)))
  {
    var toks := Tokens(rType);
    TitleOfSpacedTokens(' ', toks);
    var caps := CapitalizeAll(toks);
    forall p | p in caps ensures ' ' !in p {
      var i :| 0 <= i < |caps| && caps[i] == p;
      assert toks[i] in toks;
      assert toks[i][0] in toks[i];
      assert forall c :: c in toks[i][1..] ==> c in toks[i];
    }
    SplitOfJoin(caps, ' ');
  }
}
