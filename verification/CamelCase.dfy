/** The identifier for a name, made in place on its runes: words capitalised, underscores dropped. */
module CamelCase {
  import opened Wrappers

  /** The character tables of the library, and the table of initialisms. */
  datatype Tables = Tables(
    isLower: char -> bool, isDigit: char -> bool, toUpper: char -> char, toLower: char -> char,
    initialism: seq<char> -> Option<seq<char>>)

  function Upper(t: Tables, s: seq<char>): (r: seq<char>)
    ensures |r| == |s|
  {
    seq(|s|, i requires 0 <= i < |s| => t.toUpper(s[i]))
  }

  function Lower(t: Tables, s: seq<char>): (r: seq<char>)
    ensures |r| == |s|
  {
    seq(|s|, i requires 0 <= i < |s| => t.toLower(s[i]))
  }

  /** What the code relies on: an initialism is its word in another case, and the underscore has no case. */
  ghost predicate Sane(t: Tables)
  {
    && !t.isLower('_') && !t.isDigit('_')
    && (forall c :: t.toUpper(c) == '_' <==> c == '_')
    && (forall c :: t.toUpper(t.toUpper(c)) == t.toUpper(c))
    && (forall c :: t.isDigit(t.toUpper(c)) <==> t.isDigit(c))
    && (forall w :: t.initialism(w).Some? ==>
          Upper(t, t.initialism(w).value) == Upper(t, w) == Upper(t, Lower(t, t.initialism(w).value)))
    && (forall w :: t.initialism(w).Some? && w != [] ==>
          t.initialism(w).value != [] && t.toUpper(t.initialism(w).value[0]) == t.initialism(w).value[0])
    && (forall c :: t.isLower(c) ==> t.toLower(c) == c)
  }

  /** The characters other than underscores, in order, up to case. */
  function Letters(t: Tables, s: seq<char>): seq<char>
  {
    if s == [] then []
    else if s[0] == '_' then Letters(t, s[1..])
    else [t.toUpper(s[0])] + Letters(t, s[1..])
  }

  /** An underscore at p > 0 stands alone between two digits. */
  predicate TidyAt(t: Tables, s: seq<char>, p: nat)
    requires p < |s|
  {
    p > 0 && s[p] == '_' ==> t.isDigit(s[p - 1]) && p + 1 < |s| && t.isDigit(s[p + 1])
  }

  predicate Tidy(t: Tables, s: seq<char>)
  {
    forall p | 0 <= p < |s| :: TidyAt(t, s, p)
  }

  /** The same runes up to case. */
  predicate SameUpper(t: Tables, a: seq<char>, b: seq<char>)
  {
    |a| == |b| && forall i | 0 <= i < |a| :: t.toUpper(a[i]) == t.toUpper(b[i])
  }

  lemma {:induction false} LettersConcat(t: Tables, a: seq<char>, b: seq<char>)
    ensures Letters(t, a + b) == Letters(t, a) + Letters(t, b)
  {
    if a == [] {
      assert a + b == b;
    } else {
      LettersConcat(t, a[1..], b);
      assert (a + b)[1..] == a[1..] + b;
      var first := if a[0] == '_' then [] else [t.toUpper(a[0])];
      assert first + (Letters(t, a[1..]) + Letters(t, b)) == (first + Letters(t, a[1..])) + Letters(t, b);
    }
  }

  lemma {:induction false} NoLetters(t: Tables, s: seq<char>)
    requires forall i | 0 <= i < |s| :: s[i] == '_'
    ensures Letters(t, s) == []
  {
    if s != [] {
      NoLetters(t, s[1..]);
    }
  }

  lemma {:induction false} LettersSame(t: Tables, a: seq<char>, b: seq<char>)
    requires Sane(t) && SameUpper(t, a, b)
    ensures Letters(t, a) == Letters(t, b)
  {
    if a != [] {
      LettersSame(t, a[1..], b[1..]);
      assert t.toUpper(a[0]) == '_' <==> t.toUpper(b[0]) == '_';
    }
  }

  /** Taking out a run of underscores behind position i. */
  lemma {:induction false} LettersCut(t: Tables, s: seq<char>, from: nat, n: nat)
    requires from + n <= |s| && forall k | from <= k < from + n :: s[k] == '_'
    ensures Letters(t, s[..from] + s[from + n..]) == Letters(t, s)
  {
    var cut := s[from..from + n];
    assert s == s[..from] + (cut + s[from + n..]);
    LettersConcat(t, s[..from], cut + s[from + n..]);
    LettersConcat(t, cut, s[from + n..]);
    NoLetters(t, cut);
    LettersConcat(t, s[..from], s[from + n..]);
    assert [] + Letters(t, s[from + n..]) == Letters(t, s[from + n..]);
  }

  lemma {:induction false} TidySame(t: Tables, a: seq<char>, b: seq<char>, p: nat)
    requires Sane(t) && SameUpper(t, a, b) && p < |a|
    ensures TidyAt(t, a, p) <==> TidyAt(t, b, p)
  {
    forall i | 0 <= i < |a| ensures (a[i] == '_' <==> b[i] == '_') && (t.isDigit(a[i]) <==> t.isDigit(b[i])) {
      assert t.toUpper(a[i]) == t.toUpper(b[i]);
      assert t.isDigit(t.toUpper(a[i])) <==> t.isDigit(a[i]);
      assert t.isDigit(t.toUpper(b[i])) <==> t.isDigit(b[i]);
    }
  }

  // ---------------------------------------------------------------- what becomes of the underscores

  /** The length of the run of underscores in front of s. */
  function Run(s: seq<char>): (n: nat)
    ensures n <= |s|
    ensures forall k | 0 <= k < n :: s[k] == '_'
    ensures n < |s| ==> s[n] != '_'
  {
    if s == [] || s[0] != '_' then 0 else 1 + Run(s[1..])
  }

  lemma {:induction false} RunIs(s: seq<char>, n: nat)
    requires n <= |s| && (forall k | 0 <= k < n :: s[k] == '_') && (n < |s| ==> s[n] != '_')
    ensures Run(s) == n
  {
    if n > 0 {
      RunIs(s[1..], n - 1);
    }
  }

  /** What is left of s behind rune prev: of a run of underscores one between digits, otherwise none. */
  function Rest(t: Tables, prev: char, s: seq<char>): seq<char>
    decreases |s|
  {
    if s == [] then []
    else if s[0] != '_' then [s[0]] + Rest(t, s[0], s[1..])
    else
      var after := s[Run(s)..];
      if after != [] && t.isDigit(prev) && t.isDigit(after[0]) then ['_'] + Rest(t, '_', after)
      else Rest(t, prev, after)
  }

  /** The runes up to i are done, the underscores behind them are still to be dropped. */
  function Final(t: Tables, s: seq<char>, i: nat): seq<char>
  {
    if i >= |s| then s else s[..i + 1] + Rest(t, s[i], s[i + 1..])
  }

  /** The name without its superfluous underscores. */
  function Collapsed(t: Tables, name: seq<char>): seq<char> { Final(t, name, 0) }

  lemma {:induction false} RestKeepsLetters(t: Tables, prev: char, s: seq<char>)
    ensures Letters(t, Rest(t, prev, s)) == Letters(t, s)
    decreases |s|
  {
    if s != [] {
      if s[0] != '_' {
        RestKeepsLetters(t, s[0], s[1..]);
      } else {
        var after := s[Run(s)..];
        LettersCut(t, s, 0, Run(s));
        assert s[..0] + s[0 + Run(s)..] == after;
        RestKeepsLetters(t, prev, after);
        RestKeepsLetters(t, '_', after);
        assert (['_'] + Rest(t, '_', after))[1..] == Rest(t, '_', after);
      }
    }
  }

  lemma {:induction false} RestIsTidy(t: Tables, prev: char, s: seq<char>, p: nat)
    requires Sane(t) && 0 < p < |[prev] + Rest(t, prev, s)| && ([prev] + Rest(t, prev, s))[p] == '_'
    ensures var r := [prev] + Rest(t, prev, s); t.isDigit(r[p - 1]) && p + 1 < |r| && t.isDigit(r[p + 1])
    decreases |s|
  {
    var r := Rest(t, prev, s);
    if s[0] != '_' {
      assert ([prev] + r)[1..] == [s[0]] + Rest(t, s[0], s[1..]);
      assert forall q | 1 <= q < |[prev] + r| :: ([prev] + r)[q] == ([s[0]] + Rest(t, s[0], s[1..]))[q - 1];
      assert p > 1;
      RestIsTidy(t, s[0], s[1..], p - 1);
    } else {
      var after := s[Run(s)..];
      if after != [] && t.isDigit(prev) && t.isDigit(after[0]) {
        assert forall q | 1 <= q < |[prev] + r| :: ([prev] + r)[q] == (['_'] + Rest(t, '_', after))[q - 1];
        if p == 1 {
          assert Rest(t, '_', after)[0] == after[0];
        } else {
          RestIsTidy(t, '_', after, p - 1);
        }
      } else {
        RestIsTidy(t, prev, after, p);
      }
    }
  }

  /** Only superfluous underscores go, and an underscore stays only in front or singly between two digits. */
  lemma {:induction false} CollapsedIsTidy(t: Tables, name: seq<char>)
    requires Sane(t)
    ensures Letters(t, Collapsed(t, name)) == Letters(t, name)
    ensures Tidy(t, Collapsed(t, name))
    ensures |Collapsed(t, name)| <= |name|
  {
    if name != [] {
      var rest := Rest(t, name[0], name[1..]);
      var front := [name[0]];
      assert name[..1] == front && name == front + name[1..];
      RestKeepsLetters(t, name[0], name[1..]);
      LettersConcat(t, front, name[1..]);
      LettersConcat(t, front, rest);
      forall p | 0 < p < |front + rest| && (front + rest)[p] == '_' ensures TidyAt(t, front + rest, p) {
        RestIsTidy(t, name[0], name[1..], p);
      }
      RestShrinks(t, name[0], name[1..]);
    }
  }

  lemma {:induction false} RestShrinks(t: Tables, prev: char, s: seq<char>)
    ensures |Rest(t, prev, s)| <= |s|
    decreases |s|
  {
    if s != [] {
      if s[0] != '_' {
        RestShrinks(t, s[0], s[1..]);
      } else {
        RestShrinks(t, prev, s[Run(s)..]);
        RestShrinks(t, '_', s[Run(s)..]);
      }
    }
  }

  /** A single underscore between two digits stays. */
  lemma {:induction false} DigitsStayApart(t: Tables, a: char, b: char, n: nat)
    requires Sane(t) && t.isDigit(a) && t.isDigit(b) && n > 0
    ensures Collapsed(t, [a] + seq(n, _ => '_') + [b]) == [a, '_', b]
  {
    var name := [a] + seq(n, _ => '_') + [b];
    var s := name[1..];
    assert s == seq(n, _ => '_') + [b];
    RunIs(s, n);
    assert s[n..] == [b];
    assert Rest(t, '_', [b]) == [b] + Rest(t, b, [b][1..]);
    assert name[..1] == [a];
  }

  // ---------------------------------------------------------------- words and their case

  /**
   The words of a name: word is the one that has been started and s is what follows. A word ends in front of
   underscores, and where a lower-case rune is followed by one that is not.
   */
  function Split(t: Tables, word: seq<char>, s: seq<char>): (words: seq<seq<char>>)
    requires word != []
    ensures words != []
    decreases |s|
  {
    var last := word[|word| - 1];
    if s == [] then [word]
    else if s[0] == '_' then
      var after := s[Run(s)..];
      if after == [] then [word]
      else if t.isDigit(last) && t.isDigit(after[0]) then [word] + Split(t, ['_'], after)
      else [word] + Split(t, [after[0]], after[1..])
    else if t.isLower(last) && !t.isLower(s[0]) then [word] + Split(t, [s[0]], s[1..])
    else Split(t, word + [s[0]], s[1..])
  }

  /** An initialism has its own case, and no capital at the start of a name; a later word of small letters gets one. */
  function Cased(t: Tables, word: seq<char>, first: bool): seq<char>
    requires word != []
  {
    var u := t.initialism(word);
    if u.Some? then if first && t.isLower(word[0]) then Lower(t, u.value) else u.value
    else if !first && Lower(t, word) == word then [t.toUpper(word[0])] + word[1..]
    else word
  }

  predicate NonEmpty(words: seq<seq<char>>) { forall k | 0 <= k < |words| :: words[k] != [] }

  function Joined(t: Tables, words: seq<seq<char>>, first: bool): seq<char>
    requires NonEmpty(words)
  {
    if words == [] then [] else Cased(t, words[0], first) + Joined(t, words[1..], false)
  }

  lemma {:induction false} SplitNonEmpty(t: Tables, word: seq<char>, s: seq<char>)
    requires word != []
    ensures NonEmpty(Split(t, word, s))
    decreases |s|
  {
    if s != [] {
      if s[0] == '_' {
        var after := s[Run(s)..];
        if after != [] {
          SplitNonEmpty(t, ['_'], after);
          SplitNonEmpty(t, [after[0]], after[1..]);
        }
      } else {
        SplitNonEmpty(t, [s[0]], s[1..]);
        SplitNonEmpty(t, word + [s[0]], s[1..]);
      }
    }
  }

  /** The name with its words in the case they get. */
  function Camel(t: Tables, word: seq<char>, s: seq<char>, first: bool): seq<char>
    requires word != []
  {
    SplitNonEmpty(t, word, s);
    Joined(t, Split(t, word, s), first)
  }

  /** One word, with no small letter in front of anything but another. */
  predicate IsWord(t: Tables, word: seq<char>)
  {
    word != [] && forall k | 0 <= k < |word| - 1 && t.isLower(word[k]) :: t.isLower(word[k + 1])
  }

  lemma {:induction false} SplitIntoWords(t: Tables, word: seq<char>, s: seq<char>)
    requires Sane(t) && IsWord(t, word)
    ensures forall k | 0 <= k < |Split(t, word, s)| :: IsWord(t, Split(t, word, s)[k])
    decreases |s|
  {
    hide Sane;
    if s != [] {
      if s[0] == '_' {
        var after := s[Run(s)..];
        if after != [] {
          SplitIntoWords(t, ['_'], after);
          SplitIntoWords(t, [after[0]], after[1..]);
        }
      } else if t.isLower(word[|word| - 1]) && !t.isLower(s[0]) {
        SplitIntoWords(t, [s[0]], s[1..]);
      } else {
        SplitIntoWords(t, word + [s[0]], s[1..]);
      }
    }
  }

  /**
   Every word but the first starts with a capital, or with what is not a small letter anyway, and has the case of its
   initialism if it is one. The first word keeps its case unless it is one.
   */
  lemma {:induction false} LaterWordsStand(t: Tables, word: seq<char>)
    requires Sane(t) && IsWord(t, word)
    ensures var c := Cased(t, word, false);
      c != [] && t.toUpper(c[0]) == t.toUpper(word[0]) && (c[0] == t.toUpper(word[0]) || !t.isLower(c[0]))
    ensures forall u | t.initialism(word) == Some(u) ::
      Cased(t, word, false) == u && Cased(t, word, true) == if t.isLower(word[0]) then Lower(t, u) else u
    ensures t.initialism(word) == None ==> Cased(t, word, true) == word && Cased(t, word, false)[1..] == word[1..]
  {
    if t.initialism(word).Some? {
      var u := t.initialism(word).value;
      assert t.toUpper(u[0]) == Upper(t, u)[0] == Upper(t, word)[0];
    } else if t.isLower(word[0]) {
      AllLower(t, word, |word|);
      assert Lower(t, word) == word;
    }
  }

  lemma {:induction false} AllLower(t: Tables, word: seq<char>, n: nat)
    requires IsWord(t, word) && t.isLower(word[0]) && n <= |word|
    ensures forall k | 0 <= k < n :: t.isLower(word[k])
  {
    if n > 1 {
      AllLower(t, word, n - 1);
      assert t.isLower(word[n - 2]);
    }
  }

  /** Without their case the words are what the name is without its superfluous underscores. */
  lemma {:induction false} CamelIsCollapsed(t: Tables, word: seq<char>, s: seq<char>, first: bool)
    requires Sane(t) && word != []
    ensures SameUpper(t, Camel(t, word, s, first), word + Rest(t, word[|word| - 1], s))
    decreases |s|
  {
    hide Sane, Cased, SameUpper;
    SplitNonEmpty(t, word, s);
    var last := word[|word| - 1];
    if s == [] {
      assert word + [] == word;
      JoinOne(t, word, first);
    } else if s[0] == '_' {
      var after := s[Run(s)..];
      if after == [] {
        assert Rest(t, last, s) == [] && word + [] == word;
        JoinOne(t, word, first);
      } else if t.isDigit(last) && t.isDigit(after[0]) {
        CamelIsCollapsed(t, ['_'], after, false);
        JoinMore(t, word, ['_'], after, first, Rest(t, last, s));
      } else {
        CamelIsCollapsed(t, [after[0]], after[1..], false);
        NotRun(s);
        assert Rest(t, last, after) == [after[0]] + Rest(t, after[0], after[1..]);
        JoinMore(t, word, [after[0]], after[1..], first, Rest(t, last, s));
      }
    } else if t.isLower(last) && !t.isLower(s[0]) {
      CamelIsCollapsed(t, [s[0]], s[1..], false);
      JoinMore(t, word, [s[0]], s[1..], first, Rest(t, last, s));
    } else {
      CamelIsCollapsed(t, word + [s[0]], s[1..], first);
      assert word + ([s[0]] + Rest(t, s[0], s[1..])) == (word + [s[0]]) + Rest(t, s[0], s[1..]);
    }
  }

  lemma {:induction false} NotRun(s: seq<char>)
    ensures Run(s) < |s| ==> s[Run(s)..][0] != '_'
  {
  }

  lemma {:induction false} CasedSame(t: Tables, word: seq<char>, first: bool)
    requires Sane(t) && word != []
    ensures SameUpper(t, Cased(t, word, first), word)
  {
    var c := Cased(t, word, first);
    if t.initialism(word).Some? {
      assert Upper(t, c) == Upper(t, word);
      assert forall k | 0 <= k < |c| :: t.toUpper(c[k]) == Upper(t, c)[k] == Upper(t, word)[k] == t.toUpper(word[k]);
    }
  }

  lemma {:induction false} JoinOne(t: Tables, word: seq<char>, first: bool)
    requires Sane(t) && word != []
    ensures NonEmpty([word]) && SameUpper(t, Joined(t, [word], first), word)
  {
    CasedSame(t, word, first);
    assert [word][1..] == [] && Cased(t, word, first) + [] == Cased(t, word, first);
  }

  lemma {:induction false} JoinMore(
    t: Tables, word: seq<char>, next: seq<char>, s: seq<char>, first: bool, rest: seq<char>)
    requires Sane(t) && word != [] && next != []
    requires SameUpper(t, Camel(t, next, s, false), rest)
    ensures NonEmpty([word] + Split(t, next, s))
    ensures SameUpper(t, Joined(t, [word] + Split(t, next, s), first), word + rest)
  {
    hide Sane, Cased;
    SplitNonEmpty(t, next, s);
    CasedSame(t, word, first);
    assert ([word] + Split(t, next, s))[1..] == Split(t, next, s);
  }

  predicate AllSmall(t: Tables, name: seq<char>) { forall p | 0 <= p < |name| :: t.isLower(name[p]) }

  /** The identifier for a title-cased name. */
  function CamelName(t: Tables, name: seq<char>): seq<char>
  {
    if name == "_" || AllSmall(t, name) then name else Camel(t, [name[0]], name[1..], true)
  }

  lemma {:induction false} NameIsCollapsed(t: Tables, name: seq<char>)
    requires Sane(t)
    ensures SameUpper(t, CamelName(t, name), Collapsed(t, name))
  {
    if name == "_" {
      assert Rest(t, name[0], name[1..]) == [] && Collapsed(t, name) == name[..1] + [] == name;
    } else if AllSmall(t, name) {
      if name != [] {
        NoUnderscores(t, name[0], name[1..]);
        assert Collapsed(t, name) == name[..1] + name[1..] == name;
      }
    } else {
      CamelIsCollapsed(t, [name[0]], name[1..], true);
      assert name[..1] == [name[0]];
    }
  }

  lemma {:induction false} NoUnderscores(t: Tables, prev: char, s: seq<char>)
    requires forall p | 0 <= p < |s| :: s[p] != '_'
    ensures Rest(t, prev, s) == s
    decreases |s|
  {
    if s != [] {
      NoUnderscores(t, s[0], s[1..]);
    }
  }

  // ---------------------------------------------------------------- the loop

  /** The words from the first rune of s on. */
  function Later(t: Tables, s: seq<char>): seq<char> { if s == [] then [] else Camel(t, [s[0]], s[1..], false) }

  lemma {:induction false} OnlyWord(t: Tables, word: seq<char>, first: bool)
    requires word != []
    ensures NonEmpty([word]) && Joined(t, [word], first) == Cased(t, word, first) + []
  {
    assert [word][1..] == [];
  }

  /** A word that ends in front of underscores, */
  lemma {:induction false} EndsBehind(t: Tables, word: seq<char>, s: seq<char>, first: bool)
    requires word != [] && s != [] && s[0] == '_'
    ensures Camel(t, word, s, first) == Cased(t, word, first) + Later(t, Kept(t, word[|word| - 1], s))
  {
    var kept := Kept(t, word[|word| - 1], s);
    if s[Run(s)..] == [] {
      OnlyWord(t, word, first);
    } else {
      assert Split(t, word, s)[1..] == Split(t, [kept[0]], kept[1..]);
    }
  }

  /** a word that ends with the name or at the change of case, */
  lemma {:induction false} EndsHere(t: Tables, word: seq<char>, s: seq<char>, first: bool)
    requires word != [] && (s == [] || (s[0] != '_' && t.isLower(word[|word| - 1]) && !t.isLower(s[0])))
    ensures Camel(t, word, s, first) == Cased(t, word, first) + Later(t, s)
  {
    if s == [] {
      OnlyWord(t, word, first);
    } else {
      assert Split(t, word, s)[1..] == Split(t, [s[0]], s[1..]);
    }
  }

  /** and one that goes on. */
  lemma {:induction false} GoesOn(t: Tables, word: seq<char>, s: seq<char>, first: bool)
    requires word != [] && s != [] && s[0] != '_' && !(t.isLower(word[|word| - 1]) && !t.isLower(s[0]))
    ensures Camel(t, word, s, first) == Camel(t, word + [s[0]], s[1..], first)
  {
  }

  /** What is left of the underscores in front of s behind rune last, and what follows them. */
  function Kept(t: Tables, last: char, s: seq<char>): seq<char>
  {
    var after := s[Run(s)..];
    if after != [] && t.isDigit(last) && t.isDigit(after[0]) then ['_'] + after else after
  }

  /** How many runes to take out behind rune i, where a run of underscores starts. */
  method Underscores(t: Tables, runes: array<char>, len: nat, i: nat) returns (n: nat)
    requires i + 1 < len <= runes.Length && runes[i + 1] == '_'
    ensures i + 1 + n <= len && runes[i + 1 + n..len] == Kept(t, runes[i], runes[i + 1..len])
  {
    n := 1;
    while i + n + 1 < len && runes[i + n + 1] == '_'
      invariant i + n < len && 1 <= n
      invariant forall k | i + 1 <= k < i + 1 + n :: runes[k] == '_'
    {
      n := n + 1;
    }
    RunIs(runes[i + 1..len], n);
    assert runes[i + 1..len][n..] == runes[i + 1 + n..len];
    if i + n + 1 < len && t.isDigit(runes[i]) && t.isDigit(runes[i + n + 1]) {
      assert runes[i + n..len] == ['_'] + runes[i + 1 + n..len];
      n := n - 1;
    }
  }

  /** s without the superfluous underscores behind rune i. */
  function WithoutRun(t: Tables, s: seq<char>, i: nat): seq<char>
    requires i < |s|
  {
    s[..i + 1] + Kept(t, s[i], s[i + 1..])
  }

  /** Shifts the runes behind a run of underscores forward over it; the new length. */
  method DropUnderscores(t: Tables, runes: array<char>, len: nat, i: nat) returns (len': nat)
    requires i + 1 < len <= runes.Length && runes[i + 1] == '_'
    modifies runes
    ensures i + 1 <= len' <= len
    ensures runes[..len'] == WithoutRun(t, old(runes[..len]), i)
  {
    hide Kept, Run;
    ghost var s := runes[..len];
    var n := Underscores(t, runes, len, i);
    assert s[..i + 1] == runes[..i + 1] && s[i + 1..] == runes[i + 1..len];
    Shift(runes, len, i + 1, n);
    len' := len - n;
  }

  /** Go's copy of the runes behind a gap of n over the gap. */
  method Shift(runes: array<char>, len: nat, at: nat, n: nat)
    requires at + n <= len <= runes.Length
    modifies runes
    ensures runes[..len - n] == old(runes[..at]) + old(runes[at + n..len])
  {
    forall k | at <= k < len - n {
      runes[k] := runes[k + n];
    }
  }

  /** Go's copy of s to the runes from w on. */
  method Overwrite(runes: array<char>, len: nat, w: nat, s: seq<char>)
    requires w + |s| <= len <= runes.Length
    modifies runes
    ensures runes[..len] == old(runes[..w]) + s + old(runes[w + |s|..len])
  {
    forall k | w <= k < w + |s| {
      runes[k] := s[k - w];
    }
  }

  /** s with runes w..i as a word in its case. */
  function Recased(t: Tables, s: seq<char>, w: nat, i: nat): seq<char>
    requires w < i <= |s|
  {
    s[..w] + Cased(t, s[w..i], w == 0) + s[i..]
  }

  /** The word of runes w..i gets the case of its initialism or a capital; nothing else changes. */
  method Capitalize(t: Tables, runes: array<char>, len: nat, w: nat, i: nat)
    requires Sane(t) && w < i <= len <= runes.Length
    modifies runes
    ensures runes[..len] == Recased(t, old(runes[..len]), w, i)
  {
    hide Sane, Upper, Cased;
    assert runes[..len][..w] == runes[..w] && runes[..len][w..i] == runes[w..i] && runes[..len][i..] == runes[i..len];
    CapitalizeSlice(t, runes, len, w, i);
  }

  method CapitalizeSlice(t: Tables, runes: array<char>, len: nat, w: nat, i: nat)
    requires Sane(t) && w < i <= len <= runes.Length
    modifies runes
    ensures runes[..len] == old(runes[..w]) + Cased(t, old(runes[w..i]), w == 0) + old(runes[i..len])
  {
    hide Sane, Upper;
    var word := runes[w..i];
    CasedSame(t, word, w == 0);
    var u := t.initialism(word);
    if u.Some? {
      var cased := u.value;
      if w == 0 && t.isLower(runes[w]) {
        cased := Lower(t, cased);
      }
      Overwrite(runes, len, w, cased);
    } else if w > 0 && Lower(t, word) == word {
      Overwrite(runes, len, w, [t.toUpper(runes[w])]);
      ghost var c := t.toUpper(word[0]);
      Regrouped(old(runes[..w]), [c], word[1..], old(runes[i..len]));
      assert old(runes[w + 1..len]) == word[1..] + old(runes[i..len]);
    } else {
      assert runes[..len] == runes[..w] + word + runes[i..len];
    }
  }

  lemma {:induction false} Regrouped(a: seq<char>, b: seq<char>, c: seq<char>, d: seq<char>)
    ensures a + b + (c + d) == a + (b + c) + d
  {
  }

  /**
   camelCaseName for any title-cased name: stays in bounds, ends, and gives the words of the name in the case they get.
   Up to case that is the name without its superfluous underscores.
   */
  method CamelCaseName(t: Tables, name: seq<char>) returns (should: seq<char>)
    requires Sane(t)
    ensures should == CamelName(t, name)
    ensures SameUpper(t, should, Collapsed(t, name))
    ensures Letters(t, should) == Letters(t, name)
    ensures Tidy(t, should)
  {
    CollapsedIsTidy(t, name);
    NameIsCollapsed(t, name);
    should := Loop(t, name);
    LettersSame(t, should, Collapsed(t, name));
    forall p | 0 <= p < |should| ensures TidyAt(t, should, p) {
      TidySame(t, should, Collapsed(t, name), p);
    }
  }

  /** The branches that return early, and the loop. */
  method Loop(t: Tables, name: seq<char>) returns (should: seq<char>)
    requires Sane(t)
    ensures should == CamelName(t, name)
  {
    if name == "_" {
      return name;
    }
    var allLower := true;
    for k := 0 to |name|
      invariant allLower && forall p | 0 <= p < k :: t.isLower(name[p])
    {
      if !t.isLower(name[k]) {
        allLower := false;
        break;
      }
    }
    if allLower {
      return name;
    }
    var runes := new char[|name|](k requires 0 <= k < |name| => name[k]);
    assert runes[..] == name;
    assert runes[..1] == [name[0]] && runes[1..] == name[1..];
    var len := Words(t, runes);
    return runes[..len];
  }

  /** The runes in front of w are done, those up to i are the word that has been started. */
  ghost predicate DoneTo(t: Tables, all: seq<char>, w: nat, i: nat, want: seq<char>)
  {
    w <= i <= |all| &&
    if i < |all| then all[..w] + Camel(t, all[w..i + 1], all[i + 1..], w == 0) == want else all == want
  }

  /** A word ends at rune i, and next is what comes behind it. */
  lemma {:induction false} WordDone(
    t: Tables, all: seq<char>, w: nat, i: nat, next: seq<char>, mid: seq<char>, want: seq<char>)
    requires Sane(t) && i < |all| && DoneTo(t, all, w, i, want) && mid == all[..i + 1] + next
    requires Camel(t, all[w..i + 1], all[i + 1..], w == 0) == Cased(t, all[w..i + 1], w == 0) + Later(t, next)
    ensures DoneTo(t, Recased(t, mid, w, i + 1), i + 1, i + 1, want)
  {
    hide Sane, Camel, Cased;
    var front, cased := all[..w], Cased(t, all[w..i + 1], w == 0);
    assert mid[..w] == front && mid[w..i + 1] == all[w..i + 1] && mid[i + 1..] == next;
    var now := front + cased + next;
    CasedSame(t, all[w..i + 1], w == 0);
    assert |cased| == i + 1 - w by { SameLength(t, cased, all[w..i + 1]); }
    assert front + (cased + Later(t, next)) == (front + cased) + Later(t, next);
    if next == [] {
      assert now == front + cased == (front + cased) + [];
    } else {
      assert now[..i + 1] == front + cased && now[i + 1..i + 2] == [next[0]] && now[i + 2..] == next[1..];
    }
  }

  lemma {:induction false} SameLength(t: Tables, a: seq<char>, b: seq<char>)
    requires SameUpper(t, a, b)
    ensures |a| == |b|
  {
  }

  lemma {:induction false} WordGoesOn(t: Tables, all: seq<char>, w: nat, i: nat, want: seq<char>)
    requires i + 1 < |all| && DoneTo(t, all, w, i, want)
    requires all[i + 1] != '_' && !(t.isLower(all[i]) && !t.isLower(all[i + 1]))
    ensures DoneTo(t, all, w, i + 1, want)
  {
    var word, s := all[w..i + 1], all[i + 1..];
    GoesOn(t, word, s, w == 0);
    assert word + [s[0]] == all[w..i + 2] && s[1..] == all[i + 2..];
  }

  method Words(t: Tables, runes: array<char>) returns (len: nat)
    requires Sane(t) && runes.Length > 0
    modifies runes
    ensures len <= runes.Length
    ensures runes[..len] == Camel(t, old(runes[..1]), old(runes[1..]), true)
  {
    hide Sane, Camel, Cased, Kept, Run, Later;
    ghost var want := Camel(t, runes[..1], runes[1..], true);
    len := runes.Length;
    var w, i := 0, 0;
    assert runes[..len][0..1] == runes[..1] && runes[..len][1..] == runes[1..];
    assert [] + want == want;
    while i + 1 <= len
      invariant i <= len <= runes.Length && DoneTo(t, runes[..len], w, i, want)
      decreases len - i
    {
      ghost var all := runes[..len];
      ghost var word, s := all[w..i + 1], all[i + 1..];
      if i + 1 < len && runes[i + 1] == '_' {
        EndsBehind(t, word, s, w == 0);
        len := DropUnderscores(t, runes, len, i);
        WordDone(t, all, w, i, Kept(t, all[i], s), runes[..len], want);
        Capitalize(t, runes, len, w, i + 1);
        w := i + 1;
      } else if i + 1 == len || (t.isLower(runes[i]) && !t.isLower(runes[i + 1])) {
        EndsHere(t, word, s, w == 0);
        assert all == all[..i + 1] + s;
        WordDone(t, all, w, i, s, all, want);
        Capitalize(t, runes, len, w, i + 1);
        w := i + 1;
      } else {
        WordGoesOn(t, all, w, i, want);
      }
      i := i + 1;
    }
  }
}
