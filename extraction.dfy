/** The heuristic keyword extractor of utils.py (`fallback_keyword_extractor`):
    tokenise, drop stop words, retain likely skills and titles, de-duplicate
    case-insensitively keeping the first spelling, and attach the two
    hard-coded aliases. */
module Extraction {
  import opened Text

  /** The stop words, compared against a token's lower-case form. */
  const Stops: set<string> := {"with", "and", "in", "for", "the", "years", "yrs", "experience", "exp",
                               "job", "role", "skills", "skill", "based", "at", "location", "prefer"}

  /** The skill vocabulary that keeps a short lower-case token. */
  const CommonSkills: set<string> := {"java", "python", "spring", "django", "flask", "microservices", "aws",
                                      "docker", "kubernetes", "react", "node", "sql", "nosql", "j2ee",
                                      "springboot", "spring-boot"}

  /** The keywords and aliases the extractor returns. */
  datatype KeywordResult = KeywordResult(keywords: seq<string>, synonyms: map<string, seq<string>>)

  // ---------------------------------------------------------------------------
  // Tokenising: `re.findall(r"[A-Za-z\+\#\.\-]{2,}", text)`

  /** The character class of the token pattern: ASCII letters and `+ # . -`. */
  predicate InClass(c: char)
  {
    'A' <= c <= 'Z' || 'a' <= c <= 'z' || c == '+' || c == '#' || c == '.' || c == '-'
  }

  /** The end of the run of class characters that starts at `p`. */
  function RunEnd(s: string, p: nat): (e: nat)
    requires p <= |s|
    ensures p <= e <= |s|
    ensures forall i :: p <= i < e ==> InClass(s[i])
    ensures e < |s| ==> !InClass(s[e])
    decreases |s| - p
  {
    if p < |s| && InClass(s[p]) then RunEnd(s, p + 1) else p
  }

  /** `s[i..j]` is a run of class characters that cannot be extended on either side. */
  ghost predicate IsMaximalRun(s: string, i: int, j: int)
  {
    && 0 <= i < j <= |s|
    && (forall k :: i <= k < j ==> InClass(s[k]))
    && (i == 0 || !InClass(s[i - 1]))
    && (j == |s| || !InClass(s[j]))
  }

  /** The positions the regular-expression scan may stand at: it never starts
      in the middle of a run. */
  ghost predicate AtBoundary(s: string, p: nat)
  {
    p == 0 || p >= |s| || !InClass(s[p - 1]) || !InClass(s[p])
  }

  /** The tokens the greedy scan finds from position `p`: at `p` the pattern
      takes the whole run of class characters; a run of two or more is a
      token and the scan resumes after it, otherwise the scan moves one
      character on. */
  function TokensFrom(s: string, p: nat): (ts: seq<string>)
    requires p <= |s|
    ensures forall k :: 0 <= k < |ts| ==> |ts[k]| >= 2
    decreases |s| - p
  {
    if p == |s| then []
    else
      var e := RunEnd(s, p);
      if e - p >= 2 then [s[p..e]] + TokensFrom(s, e) else TokensFrom(s, p + 1)
  }

  /** The tokens of the whole text, in the order the scan finds them. */
  function Tokenize(s: string): (ts: seq<string>)
    ensures forall k :: 0 <= k < |ts| ==> |ts[k]| >= 2
  {
    TokensFrom(s, 0)
  }

  /** Every token the scan finds from a boundary is a maximal run of class characters. */
  lemma {:induction false} TokensFromSound(s: string, p: nat)
    requires p <= |s| && AtBoundary(s, p)
    ensures forall t :: t in TokensFrom(s, p) ==> exists i, j :: p <= i && IsMaximalRun(s, i, j) && t == s[i..j]
    decreases |s| - p
  {
    if p < |s| {
      var e := RunEnd(s, p);
      if e - p >= 2 {
        TokensFromSound(s, e);
        assert IsMaximalRun(s, p, e);
      } else {
        TokensFromSound(s, p + 1);
      }
    }
  }

  /** Every maximal run of two or more class characters at or after a boundary is found. */
  lemma {:induction false} TokensFromComplete(s: string, p: nat, i: nat, j: nat)
    requires p <= |s| && AtBoundary(s, p)
    requires p <= i && IsMaximalRun(s, i, j) && j - i >= 2
    ensures s[i..j] in TokensFrom(s, p)
    decreases |s| - p
  {
    var e := RunEnd(s, p);
    if i == p {
      assert e == j;
    } else {
      assert InClass(s[i]) && !InClass(s[i - 1]);
      if e - p >= 2 {
        assert i >= e;
        TokensFromComplete(s, e, i, j);
      } else {
        TokensFromComplete(s, p + 1, i, j);
      }
    }
  }

  /** Each token is a maximal run of at least two class characters of the text,
      so no token holds a digit, a space or any other character outside the class. */
  lemma TokenizeSound(s: string)
    ensures forall t :: t in Tokenize(s) ==> |t| >= 2 && forall c :: c in t ==> InClass(c)
    ensures forall t :: t in Tokenize(s) ==> exists i, j :: IsMaximalRun(s, i, j) && t == s[i..j]
  {
    TokensFromSound(s, 0);
    forall t | t in Tokenize(s)
      ensures |t| >= 2 && (forall c :: c in t ==> InClass(c))
    {
      var i, j :| IsMaximalRun(s, i, j) && t == s[i..j];
      forall c | c in t ensures InClass(c) {
        var m :| 0 <= m < |t| && t[m] == c;
        assert t[m] == s[i + m];
      }
    }
  }

  /** Every maximal run of at least two class characters is a token. */
  lemma TokenizeComplete(s: string, i: nat, j: nat)
    requires IsMaximalRun(s, i, j) && j - i >= 2
    ensures s[i..j] in Tokenize(s)
  {
    TokensFromComplete(s, 0, i, j);
  }

  /** Neither side of the seam between `a` and `b` can continue a run across it. */
  ghost predicate Seam(a: string, b: string)
  {
    a == [] || b == [] || !InClass(a[|a| - 1]) || !InClass(b[0])
  }

  lemma {:induction false} RunEndRight(a: string, b: string, p: nat)
    requires p <= |b|
    ensures RunEnd(a + b, |a| + p) == |a| + RunEnd(b, p)
    decreases |b| - p
  {
    if p < |b| {
      assert (a + b)[|a| + p] == b[p];
      if InClass(b[p]) {
        RunEndRight(a, b, p + 1);
      }
    }
  }

  lemma {:induction false} RunEndLeft(a: string, b: string, p: nat)
    requires p < |a| && Seam(a, b)
    ensures RunEnd(a + b, p) == RunEnd(a, p)
    decreases |a| - p
  {
    assert (a + b)[p] == a[p];
    if InClass(a[p]) {
      if p + 1 < |a| {
        RunEndLeft(a, b, p + 1);
      } else if |b| > 0 {
        assert (a + b)[p + 1] == b[0];
      }
    }
  }

  /** Past the seam, the scan of `a + b` finds what the scan of `b` finds. */
  lemma {:induction false} TokensFromRight(a: string, b: string, p: nat)
    requires p <= |b|
    ensures TokensFrom(a + b, |a| + p) == TokensFrom(b, p)
    decreases |b| - p
  {
    if p < |b| {
      RunEndRight(a, b, p);
      var e := RunEnd(b, p);
      if e - p >= 2 {
        TokensFromRight(a, b, e);
        assert (a + b)[|a| + p..|a| + e] == b[p..e];
      } else {
        TokensFromRight(a, b, p + 1);
      }
    }
  }

  /** Before the seam, the scan of `a + b` finds what the scan of `a` finds. */
  lemma {:induction false} TokensFromLeft(a: string, b: string, p: nat)
    requires p <= |a| && Seam(a, b)
    ensures TokensFrom(a + b, p) == TokensFrom(a, p) + TokensFrom(a + b, |a|)
    decreases |a| - p
  {
    if p < |a| {
      RunEndLeft(a, b, p);
      var e := RunEnd(a, p);
      if e - p >= 2 {
        TokensFromLeft(a, b, e);
        assert (a + b)[p..e] == a[p..e];
        assert [a[p..e]] + (TokensFrom(a, e) + TokensFrom(a + b, |a|))
            == ([a[p..e]] + TokensFrom(a, e)) + TokensFrom(a + b, |a|);
      } else {
        TokensFromLeft(a, b, p + 1);
      }
    }
  }

  /** Tokenising distributes over a concatenation whose seam no run crosses. */
  lemma TokenizeConcat(a: string, b: string)
    requires Seam(a, b)
    ensures Tokenize(a + b) == Tokenize(a) + Tokenize(b)
  {
    TokensFromLeft(a, b, 0);
    TokensFromRight(a, b, 0);
  }

  /** A run of at least two class characters. */
  predicate Word(w: string)
  {
    |w| >= 2 && forall i :: 0 <= i < |w| ==> InClass(w[i])
  }

  /** A single word is exactly one token. */
  lemma TokenizeRun(w: string)
    requires Word(w)
    ensures Tokenize(w) == [w]
  {
    assert RunEnd(w, 0) == |w|;
    assert TokensFrom(w, |w|) == [];
    assert w[0..|w|] == w;
  }

  /** A text in which no two class characters are adjacent has no token. */
  lemma TokenizeNoPair(s: string)
    requires forall i :: 0 <= i < |s| - 1 ==> !InClass(s[i]) || !InClass(s[i + 1])
    ensures Tokenize(s) == []
  {
    NoPairFrom(s, 0);
  }

  lemma {:induction false} NoPairFrom(s: string, p: nat)
    requires p <= |s|
    requires forall i :: 0 <= i < |s| - 1 ==> !InClass(s[i]) || !InClass(s[i + 1])
    ensures TokensFrom(s, p) == []
    decreases |s| - p
  {
    if p < |s| {
      assert RunEnd(s, p) <= p + 1;
      NoPairFrom(s, p + 1);
    }
  }

  /** A gap between words: it starts and ends outside the class and holds no token. */
  predicate Separator(sep: string)
  {
    |sep| > 0 && !InClass(sep[0]) && !InClass(sep[|sep| - 1]) && Tokenize(sep) == []
  }

  /** The text made of `words` with `seps[i]` between `words[i]` and `words[i + 1]`. */
  function Spell(words: seq<string>, seps: seq<string>): (s: string)
    requires |words| == |seps| + 1
    ensures |s| >= |words[0]| && s[..|words[0]|] == words[0]
  {
    if |seps| == 0 then words[0]
    else
      var pre := Spell(words[..|words| - 1], seps[..|seps| - 1]);
      assert (pre + seps[|seps| - 1] + words[|words| - 1])[..|words[0]|] == pre[..|words[0]|];
      pre + seps[|seps| - 1] + words[|words| - 1]
  }

  /** A separator and a word after any text add that word as its last token. */
  lemma AppendWord(pre: string, sep: string, w: string)
    requires Separator(sep) && Word(w)
    ensures Tokenize(pre + sep + w) == Tokenize(pre) + [w]
  {
    TokenizeConcat(pre, sep);
    assert (pre + sep)[|pre + sep| - 1] == sep[|sep| - 1];
    TokenizeConcat(pre + sep, w);
    TokenizeRun(w);
  }

  /** Words spelled out with separators between them are exactly the tokens, in order. */
  lemma {:induction false} TokenizeSpell(words: seq<string>, seps: seq<string>)
    requires |words| == |seps| + 1
    requires forall i :: 0 <= i < |words| ==> Word(words[i])
    requires forall i :: 0 <= i < |seps| ==> Separator(seps[i])
    ensures Tokenize(Spell(words, seps)) == words
  {
    if |seps| == 0 {
      TokenizeRun(words[0]);
      assert words == [words[0]];
    } else {
      var init := words[..|words| - 1];
      TokenizeSpell(init, seps[..|seps| - 1]);
      AppendWord(Spell(init, seps[..|seps| - 1]), seps[|seps| - 1], words[|words| - 1]);
      assert words == init + [words[|words| - 1]];
    }
  }

  // ---------------------------------------------------------------------------
  // Filtering: the stop-word comprehension and the retention loop

  /** The tokens whose lower-case form is not a stop word, in order. */
  function DropStops(ts: seq<string>): (r: seq<string>)
    ensures |r| <= |ts|
    ensures forall k :: 0 <= k < |r| ==> Lower(r[k]) !in Stops
  {
    if ts == [] then []
    else (if Lower(ts[0]) in Stops then [] else [ts[0]]) + DropStops(ts[1..])
  }

  /** The comprehension keeps exactly the tokens that are not stop words. */
  lemma {:induction false} DropStopsFilters(ts: seq<string>)
    ensures forall t :: t in DropStops(ts) ==> t in ts && Lower(t) !in Stops
    ensures forall t :: t in ts && Lower(t) !in Stops ==> t in DropStops(ts)
  {
    if ts != [] {
      DropStopsFilters(ts[1..]);
      assert forall t :: t in ts <==> t == ts[0] || t in ts[1..];
    }
  }

  /** The comprehension distributes over concatenation: it judges each token on its own. */
  lemma {:induction false} DropStopsAppend(a: seq<string>, b: seq<string>)
    ensures DropStops(a + b) == DropStops(a) + DropStops(b)
  {
    if a == [] {
      assert a + b == b;
    } else {
      assert (a + b)[0] == a[0];
      assert (a + b)[1..] == a[1..] + b;
      DropStopsAppend(a[1..], b);
    }
  }

  /** The retention test: first character upper-case, or a known skill, or longer than three. */
  predicate Retained(t: string)
  {
    (|t| > 0 && IsUpperChar(t[0])) || Lower(t) in CommonSkills || |Lower(t)| > 3
  }

  /** The tokens that pass the retention test, in order. */
  function Retain(ts: seq<string>): (r: seq<string>)
    ensures forall t :: t in r ==> t in ts && Retained(t)
    ensures forall t :: t in ts && Retained(t) ==> t in r
  {
    if ts == [] then []
    else
      var last := ts[|ts| - 1];
      assert ts == ts[..|ts| - 1] + [last];
      Retain(ts[..|ts| - 1]) + (if Retained(last) then [last] else [])
  }

  // ---------------------------------------------------------------------------
  // Case-insensitive de-duplication

  /** The lower-case forms of a list of strings: the `seen` set of the source. */
  function Lowers(ks: seq<string>): set<string>
  {
    set k | k in ks :: Lower(k)
  }

  lemma LowersAppend(ks: seq<string>, x: string)
    ensures Lowers(ks + [x]) == Lowers(ks) + {Lower(x)}
  {
    assert forall k :: k in ks + [x] <==> k in ks || k == x;
  }

  /** No two entries are equal once lower-cased. */
  ghost predicate NoCaseDuplicates(ks: seq<string>)
  {
    forall i, j :: 0 <= i < j < |ks| ==> Lower(ks[i]) != Lower(ks[j])
  }

  /** The position of the first entry whose lower-case form is `c`, or `|ks|`. */
  function FirstIndex(ks: seq<string>, c: string): (j: nat)
    ensures j <= |ks|
    ensures j < |ks| ==> Lower(ks[j]) == c
    ensures forall i :: 0 <= i < j ==> Lower(ks[i]) != c
  {
    if ks == [] then 0
    else if Lower(ks[0]) == c then 0
    else 1 + FirstIndex(ks[1..], c)
  }

  /** Keeps the first entry of each case-insensitive class, in order. */
  function Dedup(ks: seq<string>): (r: seq<string>)
    ensures |r| <= |ks|
  {
    if ks == [] then []
    else
      var last := ks[|ks| - 1];
      var d := Dedup(ks[..|ks| - 1]);
      if Lower(last) in Lowers(d) then d else d + [last]
  }

  /** De-duplication keeps entries of the input only, and loses no class. */
  lemma {:induction false} DedupKeepsClasses(ks: seq<string>)
    ensures forall k :: k in Dedup(ks) ==> k in ks
    ensures Lowers(Dedup(ks)) == Lowers(ks)
  {
    if ks != [] {
      var pre, last := ks[..|ks| - 1], ks[|ks| - 1];
      assert ks == pre + [last];
      DedupKeepsClasses(pre);
      LowersAppend(pre, last);
      LowersAppend(Dedup(pre), last);
    }
  }

  lemma {:induction false} FirstIndexAppend(ks: seq<string>, x: string, c: string)
    ensures FirstIndex(ks, c) < |ks| ==> FirstIndex(ks + [x], c) == FirstIndex(ks, c)
    ensures FirstIndex(ks, c) == |ks| && Lower(x) == c ==> FirstIndex(ks + [x], c) == |ks|
  {
    if ks != [] {
      FirstIndexAppend(ks[1..], x, c);
      assert (ks + [x])[1..] == ks[1..] + [x];
    }
  }

  /** `k` is the first spelling of its case-insensitive class in `ks`. */
  ghost predicate IsFirstSpelling(ks: seq<string>, k: string)
  {
    FirstIndex(ks, Lower(k)) < |ks| && ks[FirstIndex(ks, Lower(k))] == k
  }

  /** `Dedup(ks)` lists the first spelling of each of its classes, in order
      of first occurrence in `ks`; with `DedupKeepsClasses` it lists every class. */
  lemma {:induction false} DedupFirstOccurrence(ks: seq<string>)
    ensures forall i :: 0 <= i < |Dedup(ks)| ==> IsFirstSpelling(ks, Dedup(ks)[i])
    ensures forall i, j :: 0 <= i < j < |Dedup(ks)| ==>
              FirstIndex(ks, Lower(Dedup(ks)[i])) < FirstIndex(ks, Lower(Dedup(ks)[j]))
  {
    if ks != [] {
      var pre, last := ks[..|ks| - 1], ks[|ks| - 1];
      assert ks == pre + [last];
      DedupFirstOccurrence(pre);
      DedupKeepsClasses(pre);
      var d := Dedup(pre);
      forall i | 0 <= i < |d|
        ensures FirstIndex(ks, Lower(d[i])) == FirstIndex(pre, Lower(d[i]))
        ensures IsFirstSpelling(ks, d[i])
      {
        FirstIndexAppend(pre, last, Lower(d[i]));
        assert ks[FirstIndex(pre, Lower(d[i]))] == pre[FirstIndex(pre, Lower(d[i]))];
      }
      if Lower(last) !in Lowers(d) {
        var f := FirstIndex(pre, Lower(last));
        assert f == |pre|;
        FirstIndexAppend(pre, last, Lower(last));
        assert Dedup(ks) == d + [last];
      }
    }
  }

  /** The de-duplicated list has no two entries equal up to case. */
  lemma DedupNoCaseDuplicates(ks: seq<string>)
    ensures NoCaseDuplicates(Dedup(ks))
  {
    DedupFirstOccurrence(ks);
  }

  // ---------------------------------------------------------------------------
  // Aliases: `synonyms.setdefault(k, []).append(alias)`

  /** Appends `alias` to the aliases of `k`, starting from none when `k` has no entry yet. */
  function AddAlias(m: map<string, seq<string>>, k: string, alias: string): map<string, seq<string>>
  {
    m[k := (if k in m then m[k] else []) + [alias]]
  }

  /** One turn of the alias loop: "spring" gets "spring boot", then "java" gets "j2ee". */
  function SynonymStep(m: map<string, seq<string>>, k: string): map<string, seq<string>>
  {
    var m1 := if Lower(k) == "spring" then AddAlias(m, k, "spring boot") else m;
    if Lower(k) == "java" then AddAlias(m1, k, "j2ee") else m1
  }

  /** The alias map the loop builds over `ks`. */
  function Synonyms(ks: seq<string>): (m: map<string, seq<string>>)
    ensures forall k :: k in m ==> k in ks
  {
    if ks == [] then map[]
    else
      var last := ks[|ks| - 1];
      assert ks == ks[..|ks| - 1] + [last];
      SynonymStep(Synonyms(ks[..|ks| - 1]), last)
  }

  /** The aliases one keyword is given, by its lower-case form. */
  function AliasOf(k: string): seq<string>
  {
    if Lower(k) == "spring" then ["spring boot"]
    else if Lower(k) == "java" then ["j2ee"]
    else []
  }

  /** The reference alias map: every keyword that has an alias, with its alias. */
  function AliasMap(ks: seq<string>): map<string, seq<string>>
  {
    map k | k in ks && AliasOf(k) != [] :: AliasOf(k)
  }

  lemma AliasMapAppend(ks: seq<string>, x: string)
    ensures AliasMap(ks + [x]) == if AliasOf(x) != [] then AliasMap(ks)[x := AliasOf(x)] else AliasMap(ks)
  {
    assert forall k :: k in ks + [x] <==> k in ks || k == x;
  }

  /** A keyword not yet in the map gets exactly its alias. */
  lemma SynonymStepFresh(m: map<string, seq<string>>, k: string)
    requires k !in m
    ensures SynonymStep(m, k) == if AliasOf(k) != [] then m[k := AliasOf(k)] else m
  {
    if Lower(k) == "spring" {
      assert Lower(k) != "java";
      assert [] + ["spring boot"] == ["spring boot"];
    } else if Lower(k) == "java" {
      assert [] + ["j2ee"] == ["j2ee"];
    }
  }

  /** On a list without case-insensitive duplicates the alias map has exactly
      the keywords that have an alias as keys, each with its one alias. */
  lemma {:induction false} SynonymsAreAliases(ks: seq<string>)
    requires NoCaseDuplicates(ks)
    ensures Synonyms(ks) == AliasMap(ks)
  {
    if ks != [] {
      var pre, last := ks[..|ks| - 1], ks[|ks| - 1];
      assert ks == pre + [last];
      assert NoCaseDuplicates(pre);
      SynonymsAreAliases(pre);
      assert last !in pre by {
        forall i | 0 <= i < |pre| ensures pre[i] != last {
          assert Lower(ks[i]) != Lower(ks[|ks| - 1]);
        }
      }
      SynonymStepFresh(Synonyms(pre), last);
      AliasMapAppend(pre, last);
    }
  }

  /** In a list without case-insensitive duplicates an entry is determined by its lower-case form. */
  lemma SameClassSameEntry(ks: seq<string>, k1: string, k2: string)
    requires NoCaseDuplicates(ks) && k1 in ks && k2 in ks && Lower(k1) == Lower(k2)
    ensures k1 == k2
  {
    var i1 :| 0 <= i1 < |ks| && ks[i1] == k1;
    var i2 :| 0 <= i2 < |ks| && ks[i2] == k2;
    assert !(i1 < i2) && !(i2 < i1);
  }

  /** The two alias rules can fire at most once each, so there are at most two entries. */
  lemma AtMostTwoSynonyms(ks: seq<string>)
    requires NoCaseDuplicates(ks)
    ensures |Synonyms(ks)| <= 2
  {
    SynonymsAreAliases(ks);
    var m := AliasMap(ks);
    var a, b := "", "";
    if k :| k in ks && Lower(k) == "spring" {
      a := k;
    }
    if k :| k in ks && Lower(k) == "java" {
      b := k;
    }
    forall k | k in m ensures k == a || k == b {
      assert k in ks && AliasOf(k) != [];
      if Lower(k) == "spring" {
        SameClassSameEntry(ks, k, a);
      } else {
        assert Lower(k) == "java";
        SameClassSameEntry(ks, k, b);
      }
    }
    SubsetCard(m.Keys, {a, b});
    assert |{a, b}| <= 2 by {
      if a == b { assert {a, b} == {a}; }
    }
    assert |m| == |m.Keys| <= 2;
  }

  lemma SubsetCard(x: set<string>, y: set<string>)
    requires x <= y
    ensures |x| <= |y|
  {
    assert y == x + (y - x);
  }

  // ---------------------------------------------------------------------------
  // The extractor

  /** The keyword list of the heuristic extractor, as a composition of its stages. */
  function FallbackKeywords(text: string): (ks: seq<string>)
    ensures forall k :: k in ks ==> k in Tokenize(text) && Lower(k) !in Stops && Retained(k)
  {
    DropStopsFilters(Tokenize(text));
    DedupKeepsClasses(Retain(DropStops(Tokenize(text))));
    Dedup(Retain(DropStops(Tokenize(text))))
  }

  /** What the heuristic extractor promises of its result `x` for `text`:
      - every keyword is a token of the text (a maximal run of class characters),
        not a stop word, and passes the retention test;
      - every retained token is represented, up to case, by a keyword;
      - keywords are pairwise distinct up to case, each is the first spelling of
        its class among the retained tokens, and they come in order of first occurrence;
      - the aliases are exactly "spring boot" for a "spring" keyword and "j2ee" for a
        "java" keyword, so there are at most two entries. */
  ghost predicate IsFallbackExtraction(text: string, x: KeywordResult)
  {
    var retained := Retain(DropStops(Tokenize(text)));
    && NoCaseDuplicates(x.keywords)
    && (forall k :: k in x.keywords ==> k in Tokenize(text) && Lower(k) !in Stops && Retained(k))
    && (forall t :: t in Tokenize(text) && Lower(t) !in Stops && Retained(t) ==> Lower(t) in Lowers(x.keywords))
    && (forall i :: 0 <= i < |x.keywords| ==> IsFirstSpelling(retained, x.keywords[i]))
    && (forall i, j :: 0 <= i < j < |x.keywords| ==>
          FirstIndex(retained, Lower(x.keywords[i])) < FirstIndex(retained, Lower(x.keywords[j])))
    && x.synonyms == AliasMap(x.keywords)
    && |x.synonyms| <= 2
  }

  /** The composition of the stages meets the extractor's promises for every text. */
  lemma FallbackKeywordsProperties(text: string)
    ensures IsFallbackExtraction(text, KeywordResult(FallbackKeywords(text), Synonyms(FallbackKeywords(text))))
  {
    var kws := Retain(DropStops(Tokenize(text)));
    DropStopsFilters(Tokenize(text));
    DedupFirstOccurrence(kws);
    DedupKeepsClasses(kws);
    DedupNoCaseDuplicates(kws);
    SynonymsAreAliases(FallbackKeywords(text));
    AtMostTwoSynonyms(FallbackKeywords(text));
    forall t | t in Tokenize(text) && Lower(t) !in Stops && Retained(t)
      ensures Lower(t) in Lowers(FallbackKeywords(text))
    {
      assert t in kws;
    }
  }

  /** Keywords hold only class characters, so never a digit or white space. */
  lemma FallbackKeywordsAreRuns(text: string)
    ensures forall k :: k in FallbackKeywords(text) ==>
              (exists i, j :: IsMaximalRun(text, i, j) && k == text[i..j]) && forall c :: c in k ==> InClass(c)
  {
    FallbackKeywordsProperties(text);
    TokenizeSound(text);
  }

  /** The retention loop of `fallback_keyword_extractor`: appends to `out`
      every token that passes the retention test. */
  method RetainTokens(tokens: seq<string>) returns (out: seq<string>)
    ensures out == Retain(tokens)
  {
    out := [];
    var i := 0;
    while i < |tokens|
      invariant 0 <= i <= |tokens|
      invariant out == Retain(tokens[..i])
    {
      var t := tokens[i];
      var tl := Lower(t);
      assert tokens[..i + 1] == tokens[..i] + [t];
      if (|t| > 0 && IsUpperChar(t[0])) || tl in CommonSkills || |tl| > 3 {
        out := out + [t];
      }
      i := i + 1;
    }
    assert tokens[..i] == tokens;
  }

  /** The de-duplication loop: a `seen` set of lower-case forms, and `result`
      gets each entry whose lower-case form has not been seen. */
  method DedupIgnoringCase(out: seq<string>) returns (result: seq<string>)
    ensures result == Dedup(out)
    ensures NoCaseDuplicates(result)
  {
    var seen: set<string> := {};
    result := [];
    var i := 0;
    while i < |out|
      invariant 0 <= i <= |out|
      invariant result == Dedup(out[..i])
      invariant seen == Lowers(result)
    {
      var k := out[i];
      var kk := Lower(k);
      assert out[..i + 1] == out[..i] + [k];
      LowersAppend(result, k);
      if kk !in seen {
        seen := seen + {kk};
        result := result + [k];
      }
      i := i + 1;
    }
    assert out[..i] == out;
    DedupNoCaseDuplicates(out);
  }

  /** The alias loop: an alias is appended to the list of each keyword
      whose lower-case form is "spring" or "java". */
  method BuildSynonyms(result: seq<string>) returns (synonyms: map<string, seq<string>>)
    ensures synonyms == Synonyms(result)
    ensures NoCaseDuplicates(result) ==> synonyms == AliasMap(result)
  {
    synonyms := map[];
    var i := 0;
    while i < |result|
      invariant 0 <= i <= |result|
      invariant synonyms == Synonyms(result[..i])
    {
      var k := result[i];
      var kl := Lower(k);
      assert result[..i + 1] == result[..i] + [k];
      if kl == "spring" {
        synonyms := synonyms[k := (if k in synonyms then synonyms[k] else []) + ["spring boot"]];
      }
      if kl == "java" {
        synonyms := synonyms[k := (if k in synonyms then synonyms[k] else []) + ["j2ee"]];
      }
      i := i + 1;
    }
    assert result[..i] == result;
    if NoCaseDuplicates(result) {
      SynonymsAreAliases(result);
    }
  }

  /** `fallback_keyword_extractor`: tokenise, drop stop words, then the
      retention, de-duplication and alias loops. */
  method FallbackKeywordExtractor(jdText: string) returns (x: KeywordResult)
    ensures x.keywords == FallbackKeywords(jdText)
    ensures x.synonyms == Synonyms(x.keywords)
    ensures IsFallbackExtraction(jdText, x)
  {
    var tokens := DropStops(Tokenize(jdText));
    var out := RetainTokens(tokens);
    var result := DedupIgnoringCase(out);
    var synonyms := BuildSynonyms(result);
    x := KeywordResult(result, synonyms);
    FallbackKeywordsProperties(jdText);
  }

  // ---------------------------------------------------------------------------
  // The job description of the demo in main.py

  /** The demo's words, in order, and the gaps between them: "3-5" lies inside a
      gap, the period of "Bangalore." inside a word. */
  const MainWords: seq<string> := ["Hiring", "Java", "Developer", "with", "yrs", "experience", "in", "Bangalore.",
                                   "Skills", "Java", "Spring", "Boot", "Microservices", "Docker"]
  const MainSeparators: seq<string> := [" ", " ", " ", " 3-5 ", " ", " ", " ", " ", ": ", ", ", " ", ", ", ", "]
  const MainJobDescription: string := Spell(MainWords, MainSeparators)

  lemma MainWordsAreWords()
    ensures forall i :: 0 <= i < |MainWords| ==> Word(MainWords[i])
  {
  }

  lemma MainSeparatorsAreSeparators()
    ensures forall i :: 0 <= i < |MainSeparators| ==> Separator(MainSeparators[i])
  {
    TokenizeNoPair(" ");
    TokenizeNoPair(", ");
    TokenizeNoPair(": ");
    TokenizeNoPair(" 3-5 ");
  }

  /** The scan of the demo text finds its fourteen words: "3-5" gives no token and
      "Bangalore." keeps its period. */
  lemma MainTokens()
    ensures Tokenize(MainJobDescription) == MainWords
  {
    MainWordsAreWords();
    MainSeparatorsAreSeparators();
    TokenizeSpell(MainWords, MainSeparators);
  }

  /** Five of those tokens are stop words, "Skills" among them despite its capital. */
  lemma MainStopWords()
    ensures Lower("with") in Stops && Lower("yrs") in Stops && Lower("experience") in Stops
    ensures Lower("in") in Stops && Lower("Skills") in Stops
  {
    assert Lower("with") == "with";
    assert Lower("yrs") == "yrs";
    assert Lower("experience") == "experience";
    assert Lower("in") == "in";
    assert Lower("Skills") == "skills";
  }

  /** Among the demo's words, only "Java" lower-cases to "java" and only "Spring" to "spring". */
  lemma MainAliasWords()
    ensures forall w :: w in MainWords ==> (Lower(w) == "java" <==> w == "Java")
    ensures forall w :: w in MainWords ==> (Lower(w) == "spring" <==> w == "Spring")
  {
    forall w | w in MainWords
      ensures Lower(w) == "java" <==> w == "Java"
      ensures Lower(w) == "spring" <==> w == "Spring"
    {
      if w == "Java" {
        assert Lower(w) == "java";
      } else if w == "Spring" {
        assert Lower(w) == "spring";
      } else {
        assert |w| != 4 || Lower(w)[0] != 'j';
        assert |w| != 6 || Lower(w)[1] != 'p';
      }
    }
  }

  /** The keywords of a text are some of its tokens, hold no case duplicates,
      and represent every retained token that is not a stop word. */
  lemma KeywordsOfTokens(text: string, words: seq<string>)
    requires Tokenize(text) == words
    ensures forall k :: k in FallbackKeywords(text) ==> k in words
    ensures NoCaseDuplicates(FallbackKeywords(text))
    ensures forall w :: w in words && Lower(w) !in Stops && Retained(w) ==> Lower(w) in Lowers(FallbackKeywords(text))
  {
    var kept := DropStops(words);
    DropStopsFilters(words);
    DedupKeepsClasses(Retain(kept));
    DedupNoCaseDuplicates(Retain(kept));
  }

  /** A retained token that is not a stop word and is the only spelling of its
      class among the tokens is itself a keyword. */
  lemma KeywordRepresented(text: string, words: seq<string>, w: string)
    requires Tokenize(text) == words
    requires w in words && Lower(w) !in Stops && Retained(w)
    requires forall x :: x in words && Lower(x) == Lower(w) ==> x == w
    ensures w in FallbackKeywords(text)
  {
    KeywordsOfTokens(text, words);
  }

  /** The demo's keywords are some of its words, "Java" and "Spring" among them,
      and they hold no case duplicates. */
  lemma MainKeywordFacts()
    ensures forall k :: k in FallbackKeywords(MainJobDescription) ==> k in MainWords
    ensures "Java" in FallbackKeywords(MainJobDescription)
    ensures "Spring" in FallbackKeywords(MainJobDescription)
    ensures NoCaseDuplicates(FallbackKeywords(MainJobDescription))
  {
    MainTokens();
    KeywordsOfTokens(MainJobDescription, MainWords);
    MainAliasWords();
    MainAliasNotStops();
    KeywordRepresented(MainJobDescription, MainWords, "Java");
    KeywordRepresented(MainJobDescription, MainWords, "Spring");
  }

  /** "Java" and "Spring" are demo words that pass both filters. */
  lemma MainAliasNotStops()
    ensures "Java" in MainWords && "Spring" in MainWords
    ensures Lower("Java") !in Stops && Retained("Java") && Lower("Spring") !in Stops && Retained("Spring")
  {
    assert Lower("Java") == "java" && Lower("Spring") == "spring";
  }

  /** A keyword list drawn from the demo's words that holds "Java" and "Spring"
      has exactly those two as alias keys. */
  lemma MainAliasMap(ks: seq<string>)
    requires forall k :: k in ks ==> k in MainWords
    requires "Java" in ks && "Spring" in ks
    ensures AliasMap(ks) == map["Java" := ["j2ee"], "Spring" := ["spring boot"]]
  {
    MainAliasWords();
    assert Lower("Java") == "java" && Lower("Spring") == "spring";
    assert AliasMap(ks).Keys == {"Java", "Spring"};
  }

  /** The demo's alias map: "Java" gets "j2ee" and "Spring" gets "spring boot",
      each under its own spelling, and no other keyword gets an alias. */
  lemma MainExampleSynonyms()
    ensures Synonyms(FallbackKeywords(MainJobDescription)) == map["Java" := ["j2ee"], "Spring" := ["spring boot"]]
  {
    MainKeywordFacts();
    SynonymsAreAliases(FallbackKeywords(MainJobDescription));
    MainAliasMap(FallbackKeywords(MainJobDescription));
  }
}
