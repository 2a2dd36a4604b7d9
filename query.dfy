/** The query synthesiser of utils.py: the Boolean search string built from the
    keywords and the optional role, location and experience
    (`generate_boolean_string`), and the three site-restricted X-Ray queries
    that embed it (`generate_xray_templates`). */
module Query {
  import opened Text

  // ---------------------------------------------------------------------------
  // `sep.join(xs)`

  /** Python's `sep.join(xs)`. */
  function Join(xs: seq<string>, sep: string): (r: string)
    ensures |xs| > 0 ==> |xs[0]| <= |r| && r[..|xs[0]|] == xs[0]
  {
    if |xs| == 0 then ""
    else if |xs| == 1 then xs[0]
    else xs[0] + sep + Join(xs[1..], sep)
  }

  /** Appending an item and joining again adds the separator and the item at the
      end: the join of a list built up by `append` calls. */
  lemma {:induction false} JoinSnoc(xs: seq<string>, y: string, sep: string)
    ensures Join(xs + [y], sep) == if xs == [] then y else Join(xs, sep) + sep + y
  {
    if |xs| > 1 {
      assert (xs + [y])[1..] == xs[1..] + [y];
      JoinSnoc(xs[1..], y, sep);
    } else if |xs| == 1 {
      assert (xs + [y])[1..] == [y];
    }
  }

  /** Every item occurs in the joined string. */
  lemma {:induction false} JoinContains(xs: seq<string>, sep: string, i: nat)
    requires i < |xs|
    ensures IsSubstring(xs[i], Join(xs, sep))
  {
    if |xs| == 1 {
      OccursInConcat(xs[0], "", xs[0], "");
      assert "" + xs[0] + "" == xs[0];
    } else if i == 0 {
      OccursInConcat(xs[0], "", xs[0], sep + Join(xs[1..], sep));
      assert "" + xs[0] + (sep + Join(xs[1..], sep)) == Join(xs, sep);
    } else {
      JoinContains(xs[1..], sep, i - 1);
      OccursInConcat(xs[i], xs[0] + sep, Join(xs[1..], sep), "");
      assert xs[0] + sep + Join(xs[1..], sep) + "" == Join(xs, sep);
    }
  }

  // ---------------------------------------------------------------------------
  // The keyword block

  /** At most this many keywords enter the OR block (`keywords[:6]`). */
  const MaxOrKeywords: nat := 6

  /** `" " in k`. */
  predicate HasSpace(k: string)
  {
    ' ' in k
  }

  /** A keyword as written into the OR block: in double quotes when it holds a
      space, bare otherwise. */
  function Quote(k: string): (q: string)
    ensures q == k <==> !HasSpace(k)
    ensures |q| == if HasSpace(k) then |k| + 2 else |k|
  {
    if HasSpace(k) then "\"" + k + "\"" else k
  }

  /** A keyword is wrapped in double quotes exactly when it holds a space, and it
      is never altered in any other way. */
  lemma QuoteIff(k: string)
    ensures Quote(k) == "\"" + k + "\"" <==> HasSpace(k)
    ensures Quote(k) == k <==> !HasSpace(k)
    ensures IsSubstring(k, Quote(k))
  {
    if HasSpace(k) {
      assert |Quote(k)| == |k| + 2;
      OccursInConcat(k, "\"", k, "\"");
    } else {
      OccursInConcat(k, "", k, "");
      assert "" + k + "" == k;
    }
  }

  /** The keywords that enter the OR block: the first six, in order. */
  function Leading(keywords: seq<string>): (ks: seq<string>)
    ensures |ks| == if |keywords| < MaxOrKeywords then |keywords| else MaxOrKeywords
    ensures ks <= keywords
  {
    if |keywords| <= MaxOrKeywords then keywords else keywords[..MaxOrKeywords]
  }

  /** The quoted leading keywords, separated by " OR ". */
  function OrBlock(keywords: seq<string>): (b: string)
    ensures keywords != [] ==> |Quote(keywords[0])| <= |b| && b[..|Quote(keywords[0])|] == Quote(keywords[0])
  {
    var ks := Leading(keywords);
    Join(seq(|ks|, i requires 0 <= i < |ks| => Quote(ks[i])), " OR ")
  }

  // ---------------------------------------------------------------------------
  // The clauses and the Boolean string

  function RoleClause(role: string): (c: string)
    ensures |c| == 2 * |role| + 8 && c[0] == '(' && c[|c| - 1] == ')'
  {
    "(\"" + role + "\" OR " + role + ")"
  }

  function ExperienceClause(experience: string): (c: string)
    ensures |c| == 3 * |experience| + 24 && c[0] == '(' && c[|c| - 1] == ')'
  {
    "(\"" + experience + " years\" OR \"" + experience + " yrs\" OR " + experience + ")"
  }

  /** The `parts` list: the parenthesised OR block, then a role, a location and
      an experience clause for each of those arguments that is truthy. */
  function Parts(keywords: seq<string>, role: Option<string>, location: Option<string>,
                 experience: Option<string>): (ps: seq<string>)
    ensures |ps| == 1 + (if Truthy(role) then 1 else 0) + (if Truthy(location) then 1 else 0)
                      + (if Truthy(experience) then 1 else 0)
    ensures ps[0] == "(" + OrBlock(keywords) + ")"
  {
    ["(" + OrBlock(keywords) + ")"]
    + (if Truthy(role) then [RoleClause(role.value)] else [])
    + (if Truthy(location) then [location.value] else [])
    + (if Truthy(experience) then [ExperienceClause(experience.value)] else [])
  }

  /** `generate_boolean_string`: empty for no keywords, otherwise the parts joined
      by `" AND "`. */
  function BooleanString(keywords: seq<string>, role: Option<string>, location: Option<string>,
                         experience: Option<string>): (r: string)
    ensures r == "" <==> keywords == []
    ensures keywords != [] ==> r[0] == '('
  {
    if keywords == [] then ""
    else Join(Parts(keywords, role, location, experience), " AND ")
  }

  /** Adds `" AND " + clause` when the argument is present, as each `parts.append`
      followed by the final join does. */
  function AndIf(acc: string, present: bool, clause: string): string
  {
    if present then acc + " AND " + clause else acc
  }

  /** The Boolean string spelled out clause by clause: the keyword block, then the
      role, location and experience clauses in this fixed order, each only when its
      argument is neither absent nor empty. */
  lemma BooleanLayout(keywords: seq<string>, role: Option<string>, location: Option<string>,
                      experience: Option<string>)
    requires keywords != []
    ensures BooleanString(keywords, role, location, experience)
         == AndIf(AndIf(AndIf("(" + OrBlock(keywords) + ")",
                              Truthy(role), if Truthy(role) then RoleClause(role.value) else ""),
                        Truthy(location), if Truthy(location) then location.value else ""),
                  Truthy(experience), if Truthy(experience) then ExperienceClause(experience.value) else "")
  {
    var p0 := ["(" + OrBlock(keywords) + ")"];
    var p1 := p0 + (if Truthy(role) then [RoleClause(role.value)] else []);
    var p2 := p1 + (if Truthy(location) then [location.value] else []);
    var p3 := p2 + (if Truthy(experience) then [ExperienceClause(experience.value)] else []);
    assert Parts(keywords, role, location, experience) == p3;
    var b0 := "(" + OrBlock(keywords) + ")";
    var b1 := AndIf(b0, Truthy(role), if Truthy(role) then RoleClause(role.value) else "");
    var b2 := AndIf(b1, Truthy(location), if Truthy(location) then location.value else "");
    if Truthy(role) { JoinSnoc(p0, RoleClause(role.value), " AND "); } else { assert p1 == p0; }
    assert Join(p1, " AND ") == b1;
    if Truthy(location) { JoinSnoc(p1, location.value, " AND "); } else { assert p2 == p1; }
    assert Join(p2, " AND ") == b2;
    if Truthy(experience) { JoinSnoc(p2, ExperienceClause(experience.value), " AND "); } else { assert p3 == p2; }
  }

  /** An argument that is `None` and one that is the empty string give the same
      string. */
  lemma EmptyArgumentIsAbsent(keywords: seq<string>, role: Option<string>, location: Option<string>,
                              experience: Option<string>)
    requires keywords != []
    ensures BooleanString(keywords, Some(""), location, experience) == BooleanString(keywords, None, location, experience)
    ensures BooleanString(keywords, role, Some(""), experience) == BooleanString(keywords, role, None, experience)
    ensures BooleanString(keywords, role, location, Some("")) == BooleanString(keywords, role, location, None)
  {
    assert Parts(keywords, Some(""), location, experience) == Parts(keywords, None, location, experience);
    assert Parts(keywords, role, Some(""), experience) == Parts(keywords, role, None, experience);
    assert Parts(keywords, role, location, Some("")) == Parts(keywords, role, location, None);
  }

  /** Keywords after the sixth never reach the string: two keyword lists that agree
      on their first six entries give the same string. */
  lemma LaterKeywordsIgnored(keywords: seq<string>, others: seq<string>, role: Option<string>,
                             location: Option<string>, experience: Option<string>)
    requires |keywords| >= MaxOrKeywords && |others| >= MaxOrKeywords
    requires keywords[..MaxOrKeywords] == others[..MaxOrKeywords]
    ensures BooleanString(keywords, role, location, experience) == BooleanString(others, role, location, experience)
  {
    assert Leading(keywords) == Leading(others);
    assert Parts(keywords, role, location, experience) == Parts(others, role, location, experience);
  }

  /** Each of the first six keywords occurs in the string, and so does every
      clause whose argument is truthy. */
  lemma BooleanMentions(keywords: seq<string>, role: Option<string>, location: Option<string>,
                        experience: Option<string>, i: nat)
    requires i < |keywords| && i < MaxOrKeywords
    ensures IsSubstring(keywords[i], BooleanString(keywords, role, location, experience))
    ensures Truthy(role) ==> IsSubstring(RoleClause(role.value), BooleanString(keywords, role, location, experience))
    ensures Truthy(location) ==> IsSubstring(location.value, BooleanString(keywords, role, location, experience))
    ensures Truthy(experience) ==> IsSubstring(ExperienceClause(experience.value), BooleanString(keywords, role, location, experience))
  {
    var ps := Parts(keywords, role, location, experience);
    var r := BooleanString(keywords, role, location, experience);
    var ks := Leading(keywords);
    var quoted := seq(|ks|, j requires 0 <= j < |ks| => Quote(ks[j]));
    // the keyword sits inside its quoted form, which sits inside the OR block
    QuoteIff(keywords[i]);
    assert ks[i] == keywords[i];
    JoinContains(quoted, " OR ", i);
    SubstringTrans(keywords[i], Quote(keywords[i]), OrBlock(keywords));
    OccursInConcat(OrBlock(keywords), "(", OrBlock(keywords), ")");
    SubstringTrans(keywords[i], OrBlock(keywords), ps[0]);
    JoinContains(ps, " AND ", 0);
    SubstringTrans(keywords[i], ps[0], r);
    // each present clause is one of the joined parts
    var k := 1;
    if Truthy(role) {
      assert ps[k] == RoleClause(role.value);
      JoinContains(ps, " AND ", k);
      k := k + 1;
    }
    if Truthy(location) {
      assert ps[k] == location.value;
      JoinContains(ps, " AND ", k);
      k := k + 1;
    }
    if Truthy(experience) {
      assert ps[k] == ExperienceClause(experience.value);
      JoinContains(ps, " AND ", k);
    }
  }

  /** The role clause of the worked case: the role once quoted and once bare. */
  lemma RoleClauseExample()
    ensures RoleClause("Java Developer") == "(\"Java Developer\" OR Java Developer)"
  {
  }

  /** The experience clause of the worked case: with "years", with "yrs", and bare. */
  lemma ExperienceClauseExample()
    ensures ExperienceClause("3-5") == "(\"3-5 years\" OR \"3-5 yrs\" OR 3-5)"
  {
  }

  /** A worked case with every argument present: "Spring Boot" is quoted, the other
      keywords stay bare, and the clauses follow in the fixed order. */
  lemma QueryExample()
    ensures BooleanString(["Java", "Spring Boot", "Docker"], Some("Java Developer"), Some("Bangalore"), Some("3-5"))
         == "(" + ("Java" + " OR " + ("\"" + "Spring Boot" + "\"" + " OR " + "Docker")) + ")"
            + " AND " + RoleClause("Java Developer") + " AND " + "Bangalore" + " AND " + ExperienceClause("3-5")
  {
    var ks := ["Java", "Spring Boot", "Docker"];
    assert !HasSpace("Java") && HasSpace("Spring Boot") && !HasSpace("Docker");
    assert Leading(ks) == ks;
    var q := seq(3, i requires 0 <= i < 3 => Quote(ks[i]));
    assert q == ["Java", "\"" + "Spring Boot" + "\"", "Docker"];
    assert q[1..][1..] == ["Docker"];
    assert Join(q[1..], " OR ") == q[1] + " OR " + "Docker";
    assert OrBlock(ks) == "Java" + " OR " + ("\"" + "Spring Boot" + "\"" + " OR " + "Docker");
    BooleanLayout(ks, Some("Java Developer"), Some("Bangalore"), Some("3-5"));
  }

  // ---------------------------------------------------------------------------
  // X-Ray templates

  const NaukriPrefix: string := "site:naukri.com/resume "
  const LinkedInPrefix: string := "site:linkedin.com/in "
  const GooglePrefix: string := "site:google.com \"resume\" "

  /** `generate_xray_templates`: the Boolean string behind each site's fixed prefix. */
  function XRayTemplates(booleanString: string): (m: map<string, string>)
    ensures m.Keys == {"Naukri", "LinkedIn", "Google"}
  {
    map["Naukri" := NaukriPrefix + booleanString,
        "LinkedIn" := LinkedInPrefix + booleanString,
        "Google" := GooglePrefix + booleanString]
  }

  /** Each template is the empty string's template followed by the Boolean string,
      verbatim: the prefix never depends on it and nothing is escaped. */
  lemma XRayVerbatim(booleanString: string)
    ensures forall site :: site in XRayTemplates(booleanString) ==>
              site in XRayTemplates("")
              && XRayTemplates(booleanString)[site] == XRayTemplates("")[site] + booleanString
  {
    assert NaukriPrefix + "" == NaukriPrefix;
    assert LinkedInPrefix + "" == LinkedInPrefix;
    assert GooglePrefix + "" == GooglePrefix;
  }

  /** Dropping its site's prefix from any template gives back the Boolean string,
      so different strings never give the same templates. */
  lemma XRayRoundTrip(booleanString: string, other: string)
    ensures XRayTemplates(booleanString)["Naukri"][|NaukriPrefix|..] == booleanString
    ensures XRayTemplates(booleanString)["LinkedIn"][|LinkedInPrefix|..] == booleanString
    ensures XRayTemplates(booleanString)["Google"][|GooglePrefix|..] == booleanString
    ensures XRayTemplates(booleanString) == XRayTemplates(other) ==> booleanString == other
  {
    var m, n := XRayTemplates(booleanString), XRayTemplates(other);
    assert m["Google"][|GooglePrefix|..] == booleanString;
    assert n["Google"][|GooglePrefix|..] == other;
  }
}
