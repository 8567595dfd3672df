/**
  Agent names: validity, the least-free-name search a refused hello uses, and the
  derivation of a name from a directory (internal/validate/name.go).
*/
module Naming {
  import opened Text

  const NAME_CAP := 40

  predicate IsAlnum(c: char) {
    'a' <= c <= 'z' || '0' <= c <= '9'
  }

  predicate IsNameChar(c: char) {
    IsAlnum(c) || c == '-'
  }

  predicate NameChars(s: string) {
    forall i | 0 <= i < |s| :: IsNameChar(s[i])
  }

  /** `validate.Name`: the pattern [a-z0-9][a-z0-9-]{0,39}. */
  predicate ValidName(s: string) {
    1 <= |s| <= NAME_CAP && IsAlnum(s[0]) && NameChars(s)
  }

  /** Names are the texts of the pattern: one of [a-z0-9], then up to 39 of [a-z0-9-]. */
  lemma ValidNameIsPattern(s: string)
    ensures ValidName(s) <==>
      && s != "" && |s[1..]| <= 39
      && ('a' <= s[0] <= 'z' || '0' <= s[0] <= '9')
      && forall c | c in s[1..] :: 'a' <= c <= 'z' || '0' <= c <= '9' || c == '-'
  {
    if s != "" {
      assert forall i | 0 <= i < |s| - 1 :: s[1..][i] == s[i + 1] && s[i + 1] in s[1..];
      if NameChars(s) {
        forall c | c in s[1..] ensures IsNameChar(c) {
          var i :| 0 <= i < |s[1..]| && s[1..][i] == c;
          assert s[i + 1] == c;
        }
      }
      if forall c | c in s[1..] :: IsNameChar(c) {
        forall i | 1 <= i < |s| ensures IsNameChar(s[i]) {
          assert s[1..][i - 1] == s[i];
        }
      }
    }
  }

  // ----- the least free candidate ------------------------------------------

  function Candidate(base: string, n: nat): string {
    base + "-" + Decimal(n)
  }

  lemma CandidateInjective(base: string, m: nat, n: nat)
    requires Candidate(base, m) == Candidate(base, n)
    ensures m == n
  {
    assert Candidate(base, m)[|base| + 1..] == Decimal(m);
    assert Candidate(base, n)[|base| + 1..] == Decimal(n);
    DecimalInjective(m, n);
  }

  /** Only numbers below 10^40 have candidates that fit the cap: why the search stops. */
  lemma CandidateBound(base: string, n: nat)
    requires |Candidate(base, n)| <= NAME_CAP
    ensures n < Pow10(NAME_CAP)
  {
    DecimalBound(n);
    Pow10Monotone(|Decimal(n)|, NAME_CAP);
  }

  function NextFrom(base: string, taken: set<string>, n: nat): string
    decreases Pow10(NAME_CAP) - n
  {
    var candidate := Candidate(base, n);
    if |candidate| > NAME_CAP then ""
    else if candidate !in taken then candidate
    else
      CandidateBound(base, n);
      NextFrom(base, taken, n + 1)
  }

  function NextFree(base: string, taken: set<string>): string {
    if base == "" then "" else if base !in taken then base else NextFrom(base, taken, 2)
  }

  /** `validate.NextAvailableName`. */
  method NextAvailableName(base: string, taken: set<string>) returns (name: string)
    ensures name == NextFree(base, taken)
  {
    if base == "" {
      return "";
    }
    if base !in taken {
      return base;
    }
    var n: nat := 2;
    while true
      invariant NextFrom(base, taken, n) == NextFree(base, taken)
      decreases Pow10(NAME_CAP) - n
    {
      var candidate := Candidate(base, n);
      if |candidate| > NAME_CAP {
        return "";
      }
      if candidate !in taken {
        return candidate;
      }
      CandidateBound(base, n);
      n := n + 1;
    }
  }

  /** `name` is the first free candidate numbered `from` or higher. */
  ghost predicate IsLeastFree(base: string, taken: set<string>, from: nat, name: string) {
    exists n | from <= n ::
      && name == Candidate(base, n)
      && |name| <= NAME_CAP
      && name !in taken
      && forall m | from <= m < n :: Candidate(base, m) in taken
  }

  /** Every candidate numbered `from` or higher that fits the cap is taken. */
  ghost predicate Exhausted(base: string, taken: set<string>, from: nat) {
    forall m: nat | from <= m && |Candidate(base, m)| <= NAME_CAP :: Candidate(base, m) in taken
  }

  lemma {:induction false} NextFromIsLeast(base: string, taken: set<string>, n: nat)
    ensures NextFrom(base, taken, n) != "" ==> IsLeastFree(base, taken, n, NextFrom(base, taken, n))
    ensures NextFrom(base, taken, n) == "" ==> Exhausted(base, taken, n)
    decreases Pow10(NAME_CAP) - n
  {
    var candidate := Candidate(base, n);
    if |candidate| > NAME_CAP {
      forall m: nat | n <= m
        ensures |Candidate(base, m)| > NAME_CAP
      {
        DecimalLengthMonotone(n, m);
      }
    } else if candidate in taken {
      CandidateBound(base, n);
      NextFromIsLeast(base, taken, n + 1);
    }
  }

  /**
    The search meets its documentation for every base and every taken set, in both
    directions: the base itself when free, else the least numbered candidate that is
    free, and "" only when the base is empty or no candidate of at most 40 characters
    is free.
  */
  lemma NextFreeIsLeast(base: string, taken: set<string>)
    ensures NextFree(base, taken) !in taken || NextFree(base, taken) == ""
    ensures base != "" && base !in taken <==> NextFree(base, taken) == base && base != ""
    ensures base != "" && base in taken && NextFree(base, taken) != ""
         ==> IsLeastFree(base, taken, 2, NextFree(base, taken))
    ensures NextFree(base, taken) == "" <==> base == "" || (base in taken && Exhausted(base, taken, 2))
  {
    if base != "" && base in taken {
      NextFromIsLeast(base, taken, 2);
    }
  }

  /** The declarative reading fixes the answer: two least free candidates coincide. */
  lemma LeastFreeUnique(base: string, taken: set<string>, from: nat, a: string, b: string)
    requires IsLeastFree(base, taken, from, a) && IsLeastFree(base, taken, from, b)
    ensures a == b
  {
  }

  /** The first suggestion for a taken name is the name with "-2", when that is free and fits. */
  lemma FirstSuggestion(base: string, taken: set<string>)
    requires base != "" && base in taken && base + "-2" !in taken && |base| <= 38
    ensures NextFree(base, taken) == base + "-2"
  {
    assert Decimal(2) == "2";
    assert Candidate(base, 2) == base + "-2";
  }

  lemma {:induction false} TakenRun(base: string, taken: set<string>, n: nat)
    requires n >= 2 && base in taken
    requires forall m | 2 <= m < n :: Candidate(base, m) in taken
    ensures n - 1 <= |taken|
  {
    if n == 2 {
      assert |taken - {base}| == |taken| - 1;
    } else {
      var last := Candidate(base, n - 1);
      forall m | 2 <= m < n - 1 ensures Candidate(base, m) in taken - {last} {
        if Candidate(base, m) == last {
          CandidateInjective(base, m, n - 1);
        }
      }
      TakenRun(base, taken - {last}, n - 1);
    }
  }

  /**
    How far the search goes: candidates are distinct, so among n taken names the suggestion
    for a taken base is numbered n + 1 at most.
  */
  lemma SearchIsShort(base: string, taken: set<string>)
    requires base in taken && NextFree(base, taken) != ""
    ensures exists n | 2 <= n <= |taken| + 1 :: NextFree(base, taken) == Candidate(base, n)
  {
    NextFreeIsLeast(base, taken);
    var n :| 2 <= n && NextFree(base, taken) == Candidate(base, n)
             && forall m | 2 <= m < n :: Candidate(base, m) in taken;
    TakenRun(base, taken, n);
  }

  lemma NameCharsConcat(a: string, b: string)
    requires NameChars(a) && NameChars(b)
    ensures NameChars(a + b)
  {
  }

  lemma NextFreeKeepsValidity(base: string, taken: set<string>)
    requires ValidName(base)
    ensures NextFree(base, taken) == "" || ValidName(NextFree(base, taken))
  {
    var name := NextFree(base, taken);
    if base in taken && name != "" {
      NextFromIsLeast(base, taken, 2);
      var n: nat :| 2 <= n && name == Candidate(base, n);
      var d := Decimal(n);
      assert forall i | 0 <= i < |d| :: IsDigit(d[i]) && IsNameChar(d[i]);
      NameCharsConcat(base + "-", d);
    }
  }

  // ----- the name derived from a directory ---------------------------------

  predicate EndsWithDash(s: string) {
    s != "" && s[|s| - 1] == '-'
  }

  /** What the builder holds after reading `s`: runs of other characters become one dash. */
  function Squeeze(s: string): string {
    if s == "" then ""
    else
      var b := Squeeze(s[..|s| - 1]);
      var ch := s[|s| - 1];
      if IsAlnum(ch) then b + [ch]
      else if b != "" && !EndsWithDash(b) then b + "-"
      else b
  }

  function TrimLeft(s: string): string {
    if s != "" && s[0] == '-' then TrimLeft(s[1..]) else s
  }

  function TrimRight(s: string): string {
    if EndsWithDash(s) then TrimRight(s[..|s| - 1]) else s
  }

  function Cap(s: string): string {
    if |s| > NAME_CAP then s[..NAME_CAP] else s
  }

  function NameOf(base: string): string {
    var name := Cap(TrimRight(TrimLeft(Squeeze(base))));
    if ValidName(name) then name else ""
  }

  /** `validate.AutoNameFromCwd`, from the lower-cased last path element on. */
  method AutoName(base: string) returns (name: string)
    ensures name == NameOf(base)
  {
    var b := "";
    for i := 0 to |base|
      invariant b == Squeeze(base[..i])
    {
      var ch := base[i];
      assert base[..i + 1][..i] == base[..i];
      if IsAlnum(ch) {
        b := b + [ch];
      } else {
        if |b| > 0 && b[|b| - 1] != '-' {
          b := b + "-";
        }
      }
    }
    assert base[..|base|] == base;
    name := TrimRight(TrimLeft(b));
    if |name| > NAME_CAP {
      name := name[..NAME_CAP];
    }
    if !ValidName(name) {
      return "";
    }
  }

  /** The maximal alphanumeric runs of a text, and whether the last one is still open. */
  datatype Words = Words(done: seq<string>, open: bool)

  predicate AllWords(words: seq<string>) {
    forall i | 0 <= i < |words| :: IsWord(words[i])
  }

  predicate IsWord(w: string) {
    w != "" && forall i | 0 <= i < |w| :: IsAlnum(w[i])
  }

  function WordsOf(s: string): (w: Words)
    ensures w.open ==> w.done != []
    ensures AllWords(w.done)
  {
    if s == "" then Words([], false)
    else
      var w := WordsOf(s[..|s| - 1]);
      var ch := s[|s| - 1];
      if !IsAlnum(ch) then Words(w.done, false)
      else if w.open then
        Words(w.done[..|w.done| - 1] + [w.done[|w.done| - 1] + [ch]], true)
      else Words(w.done + [[ch]], true)
  }

  function JoinDash(words: seq<string>): string {
    if words == [] then ""
    else if |words| == 1 then words[0]
    else JoinDash(words[..|words| - 1]) + "-" + words[|words| - 1]
  }

  lemma JoinDashSnoc(words: seq<string>, word: string)
    ensures JoinDash(words + [word]) == (if words == [] then word else JoinDash(words) + "-" + word)
  {
    assert (words + [word])[..|words|] == words;
  }

  lemma JoinDashGrow(words: seq<string>, word: string, ch: char)
    ensures JoinDash(words + [word + [ch]]) == JoinDash(words + [word]) + [ch]
  {
    JoinDashSnoc(words, word);
    JoinDashSnoc(words, word + [ch]);
    assert JoinDash(words) + "-" + (word + [ch]) == JoinDash(words) + "-" + word + [ch];
  }

  /** The shape of a join of non-empty words: no dash at either end, none adjacent. */
  ghost predicate Tidy(s: string) {
    && NameChars(s)
    && (s != "" ==> s[0] != '-' && !EndsWithDash(s))
    && forall i | 0 <= i < |s| - 1 :: !(s[i] == '-' && s[i + 1] == '-')
  }

  lemma TidySnoc(a: string, w: string)
    requires Tidy(a) && a != "" && w != ""
    requires forall i | 0 <= i < |w| :: IsAlnum(w[i])
    ensures Tidy(a + "-" + w)
  {
    var s := a + "-" + w;
    assert forall i | 0 <= i < |s| ::
      s[i] == if i < |a| then a[i] else if i == |a| then '-' else w[i - |a| - 1];
  }

  lemma {:induction false} JoinDashTidy(words: seq<string>)
    requires AllWords(words)
    ensures Tidy(JoinDash(words))
    ensures JoinDash(words) == "" <==> words == []
  {
    if |words| == 1 {
      assert IsWord(words[0]);
    } else if |words| > 1 {
      var k := |words| - 1;
      JoinDashTidy(words[..k]);
      assert IsWord(words[k]);
      TidySnoc(JoinDash(words[..k]), words[k]);
    }
  }

  /** The builder holds the words joined by dashes, with one dash after a closed last word. */
  lemma {:induction false} SqueezeJoinsWords(s: string)
    ensures Squeeze(s) == JoinDash(WordsOf(s).done)
                          + if WordsOf(s).done != [] && !WordsOf(s).open then "-" else ""
  {
    if s != "" {
      var p, ch := s[..|s| - 1], s[|s| - 1];
      SqueezeJoinsWords(p);
      var w := WordsOf(p);
      JoinDashTidy(w.done);
      if IsAlnum(ch) {
        if w.open {
          var k := |w.done| - 1;
          JoinDashGrow(w.done[..k], w.done[k], ch);
          assert w.done == w.done[..k] + [w.done[k]];
        } else if w.done != [] {
          JoinDashSnoc(w.done, [ch]);
          assert JoinDash(w.done) + "-" + [ch] == (JoinDash(w.done) + "-") + [ch];
        }
      }
    }
  }

  lemma TrimTidy(s: string, tail: string)
    requires Tidy(s)
    requires tail == "" || (tail == "-" && s != "")
    ensures TrimRight(TrimLeft(s + tail)) == s
  {
    if tail == "-" {
      assert (s + tail)[..|s|] == s;
    } else {
      assert s + tail == s;
    }
  }

  /** Trimming leaves exactly the words, joined by single dashes. */
  lemma TrimmedIsJoin(base: string)
    ensures TrimRight(TrimLeft(Squeeze(base))) == JoinDash(WordsOf(base).done)
    ensures Tidy(JoinDash(WordsOf(base).done))
  {
    SqueezeJoinsWords(base);
    JoinDashTidy(WordsOf(base).done);
    TrimTidy(JoinDash(WordsOf(base).done),
             if WordsOf(base).done != [] && !WordsOf(base).open then "-" else "");
  }

  lemma {:induction false} NoWordsMeansNoAlnum(s: string)
    ensures WordsOf(s).done == [] <==> forall i | 0 <= i < |s| :: !IsAlnum(s[i])
  {
    if s != "" {
      var p := s[..|s| - 1];
      NoWordsMeansNoAlnum(p);
      assert forall i | 0 <= i < |p| :: p[i] == s[i];
    }
  }

  /**
    The derived name is the text's alphanumeric runs joined by single dashes and cut at
    40 characters; it is "" exactly when there is no such character, and otherwise valid
    with no two adjacent dashes.
  */
  lemma AutoNameMeaning(base: string)
    ensures NameOf(base) == Cap(JoinDash(WordsOf(base).done))
    ensures NameOf(base) == "" <==> forall i | 0 <= i < |base| :: !IsAlnum(base[i])
    ensures NameOf(base) != "" ==> ValidName(NameOf(base))
    ensures forall i | 0 <= i < |NameOf(base)| - 1 :: !(NameOf(base)[i] == '-' && NameOf(base)[i + 1] == '-')
  {
    TrimmedIsJoin(base);
    JoinDashTidy(WordsOf(base).done);
    NoWordsMeansNoAlnum(base);
    var full := JoinDash(WordsOf(base).done);
    assert full != "" ==> IsNameChar(full[0]);
  }

  /** A text already in the builder's form passes through it unchanged. */
  lemma {:induction false} SqueezeFixed(s: string)
    requires NameChars(s) && (s != "" ==> s[0] != '-')
    requires forall i | 0 <= i < |s| - 1 :: !(s[i] == '-' && s[i + 1] == '-')
    ensures Squeeze(s) == s
  {
    if s != "" {
      var p := s[..|s| - 1];
      SqueezeFixed(p);
      assert s == p + [s[|s| - 1]];
      if s[|s| - 1] == '-' {
        assert |s| >= 2;
        var j := |s| - 2;
        assert s[j] != '-';
      }
    }
  }

  /**
    Deriving a name from a derived name gives it back, except when the cap cut just after
    a dash: then, and only then, the second derivation drops that dash.
  */
  lemma AutoNameFixedPoint(base: string)
    ensures NameOf(NameOf(base)) == NameOf(base) <==> !EndsWithDash(NameOf(base))
    ensures EndsWithDash(NameOf(base))
        <==> |JoinDash(WordsOf(base).done)| > NAME_CAP
             && JoinDash(WordsOf(base).done)[NAME_CAP - 1] == '-'
  {
    AutoNameMeaning(base);
    TrimmedIsJoin(base);
    var name := NameOf(base);
    if name == "" {
      assert TrimRight(TrimLeft(Squeeze(""))) == "";
    } else {
      SqueezeFixed(name);
      assert TrimLeft(name) == name;
      if EndsWithDash(name) {
        var shorter := TrimRight(name[..|name| - 1]);
        TrimRightShrinks(name[..|name| - 1]);
        assert TrimRight(name) == shorter;
      }
    }
  }

  lemma {:induction false} TrimRightShrinks(s: string)
    ensures |TrimRight(s)| <= |s|
  {
    if EndsWithDash(s) {
      TrimRightShrinks(s[..|s| - 1]);
    }
  }

  /** A text that is its own join of words is only cut. */
  lemma TidyIsCapped(base: string)
    requires Tidy(base) && base != "" && IsAlnum(base[0])
    ensures NameOf(base) == Cap(base)
  {
    SqueezeFixed(base);
    assert TrimRight(TrimLeft(Squeeze(base))) == base;
  }

  /** The cap can cut just after a dash: such a name is not derived from itself. */
  lemma CapAfterDash()
    ensures var base := "a23456789-b23456789-c23456789-d23456789-e";
            && NameOf(base) == base[..NAME_CAP] && EndsWithDash(NameOf(base))
            && NameOf(NameOf(base)) != NameOf(base)
  {
    var base := "a23456789-b23456789-c23456789-d23456789-e";
    TidyIsCapped(base);
    AutoNameFixedPoint(base);
  }
}
