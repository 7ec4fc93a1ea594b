/** Topic classification of main.py: an ordered taxonomy of macroeconomic
    topics and a first-match keyword search over it. */
module Topics {
  import opened Text

  /** A taxonomy: topics in definition order, each with its keywords.  A
      sequence rather than a map, because the order decides ties. */
  type Taxonomy = seq<(string, seq<string>)>

  /** The taxonomy `macro_topics`, in its definition order. */
  const MacroTopics: Taxonomy := [
    ("inflation", [
      "inflation", "flation", "cpi", "consumer price index", "product price index",
      "ppi", "price stability", "consumer prices", "shrinkflation", "disinflationary",
      "disinflation", "cost of living", "deflation", "hyperinflation",
      "inflation expectations", "stagflation", "headline inflation", "core inflation"]),
    ("unemployment", [
      "unemployment", "job", "job growth", "labor market", "labor", "wages",
      "employment", "jobless", "hiring", "underemployment", "workforce", "layoffs"]),
    ("interest_rates", [
      "interest rate", "fed rates", "federal reserve", "fedral open market committee",
      "monetary", "monetary policy", "fomc", "rate hike", "rate cut",
      "quantitative easing", "qe", "quantitative tightening", "yield curve", "ffr",
      "federal funds rate"]),
    ("economic_growth", [
      "gdp", "domestic product", "gnp", "gross national product", "economic expansion",
      "recession", "growth", "economic slowdown", "stagnation", "boom and bust cycle",
      "business cycle", "productivity", "economic indicators"]),
    ("housing", ["mortgage", "housing", "home construction"])
  ]

  /** The label given to text that matches no topic. */
  const Other: string := "other"

  /** Every label the classifier can return: the taxonomy's topics and "other". */
  const TopicLabels: seq<string> :=
    ["inflation", "unemployment", "interest_rates", "economic_growth", "housing", Other]

  /** Python's `any(keyword in text for keyword in keywords)`. */
  function AnyKeyword(keywords: seq<string>, text: string): (found: bool)
    ensures found <==> exists i | 0 <= i < |keywords| :: Contains(text, keywords[i])
  {
    if keywords == [] then false
    else if Contains(text, keywords[0]) then true
    else
      var rest := AnyKeyword(keywords[1..], text);
      assert rest ==> exists i | 0 <= i < |keywords| :: Contains(text, keywords[i]) by {
        if rest {
          var i :| 0 <= i < |keywords[1..]| && Contains(text, keywords[1..][i]);
          assert keywords[1..][i] == keywords[i + 1];
        }
      }
      assert (exists i | 0 <= i < |keywords| :: Contains(text, keywords[i])) ==> rest by {
        if exists i | 0 <= i < |keywords| :: Contains(text, keywords[i]) {
          var i :| 0 <= i < |keywords| && Contains(text, keywords[i]);
          assert keywords[i] == keywords[1..][i - 1];
        }
      }
      rest
  }

  /** The loop of `classify_topic` over an arbitrary taxonomy: the first
      topic, in order, with a keyword in `text`, else "other". */
  function FirstMatch(taxonomy: Taxonomy, text: string): (topic: string)
    ensures topic == Other || exists i | 0 <= i < |taxonomy| :: taxonomy[i].0 == topic
  {
    if taxonomy == [] then Other
    else if AnyKeyword(taxonomy[0].1, text) then taxonomy[0].0
    else
      var rest := FirstMatch(taxonomy[1..], text);
      assert rest != Other ==> exists i | 0 <= i < |taxonomy[1..]| :: taxonomy[1..][i].0 == rest;
      assert rest != Other ==> exists i | 0 <= i < |taxonomy| :: taxonomy[i].0 == rest by {
        if rest != Other {
          var i :| 0 <= i < |taxonomy[1..]| && taxonomy[1..][i].0 == rest;
          assert taxonomy[i + 1].0 == rest;
        }
      }
      rest
  }

  /** `classify_topic` on text already converted by `str()`. */
  function ClassifyText(s: string): (topic: string)
    ensures topic in TopicLabels
  {
    FirstMatch(MacroTopics, Lower(s))
  }

  /** `classify_topic(cell)`: `str()`, lower-case, first match. */
  function ClassifyTopic(c: Cell): (topic: string)
    ensures topic in TopicLabels
  {
    ClassifyText(AsString(c))
  }

  /** First match in definition order: a topic with a matching keyword wins
      when no earlier topic has one. */
  lemma {:induction false} FirstMatchIsFirst(taxonomy: Taxonomy, text: string, i: nat)
    requires i < |taxonomy|
    requires AnyKeyword(taxonomy[i].1, text)
    requires forall j | 0 <= j < i :: !AnyKeyword(taxonomy[j].1, text)
    ensures FirstMatch(taxonomy, text) == taxonomy[i].0
  {
    if i > 0 {
      assert !AnyKeyword(taxonomy[0].1, text);
      FirstMatchIsFirst(taxonomy[1..], text, i - 1);
    }
  }

  /** With no keyword of any topic in `text`, the result is "other". */
  lemma {:induction false} FirstMatchNone(taxonomy: Taxonomy, text: string)
    requires forall j | 0 <= j < |taxonomy| :: !AnyKeyword(taxonomy[j].1, text)
    ensures FirstMatch(taxonomy, text) == Other
  {
    if taxonomy != [] {
      assert !AnyKeyword(taxonomy[0].1, text);
      FirstMatchNone(taxonomy[1..], text);
    }
  }

  /** Conversely, a result other than "other" names a topic with a matching
      keyword, and every earlier topic has none. */
  lemma {:induction false} FirstMatchFound(taxonomy: Taxonomy, text: string)
    requires Other !in TopicNames(taxonomy)
    requires FirstMatch(taxonomy, text) != Other
    ensures exists i | 0 <= i < |taxonomy| ::
      && taxonomy[i].0 == FirstMatch(taxonomy, text)
      && AnyKeyword(taxonomy[i].1, text)
      && forall j | 0 <= j < i :: !AnyKeyword(taxonomy[j].1, text)
  {
    if AnyKeyword(taxonomy[0].1, text) {
      assert taxonomy[0].0 == FirstMatch(taxonomy, text);
    } else {
      assert TopicNames(taxonomy[1..]) == TopicNames(taxonomy)[1..];
      FirstMatchFound(taxonomy[1..], text);
      var i :| 0 <= i < |taxonomy[1..]|
        && taxonomy[1..][i].0 == FirstMatch(taxonomy[1..], text)
        && AnyKeyword(taxonomy[1..][i].1, text)
        && forall j | 0 <= j < i :: !AnyKeyword(taxonomy[1..][j].1, text);
      forall j | 0 <= j < i + 1 ensures !AnyKeyword(taxonomy[j].1, text) {
        if j > 0 { assert taxonomy[j] == taxonomy[1..][j - 1]; }
      }
      assert taxonomy[i + 1].0 == FirstMatch(taxonomy, text);
    }
  }

  function TopicNames(taxonomy: Taxonomy): seq<string> {
    seq(|taxonomy|, i requires 0 <= i < |taxonomy| => taxonomy[i].0)
  }

  /** A topic with a matching keyword forces a result other than "other",
      provided no topic is itself named "other". */
  lemma {:induction false} FirstMatchNotOther(taxonomy: Taxonomy, text: string, j: nat)
    requires Other !in TopicNames(taxonomy)
    requires j < |taxonomy| && AnyKeyword(taxonomy[j].1, text)
    ensures FirstMatch(taxonomy, text) != Other
  {
    assert TopicNames(taxonomy)[0] == taxonomy[0].0;
    if !AnyKeyword(taxonomy[0].1, text) {
      assert TopicNames(taxonomy[1..]) == TopicNames(taxonomy)[1..];
      FirstMatchNotOther(taxonomy[1..], text, j - 1);
    }
  }

  /** Topic names are pairwise distinct and none is "other". */
  ghost predicate WellFormed(taxonomy: Taxonomy) {
    && Other !in TopicNames(taxonomy)
    && forall i, j | 0 <= i < j < |taxonomy| :: taxonomy[i].0 != taxonomy[j].0
  }

  lemma MacroTopicsWellFormed()
    ensures WellFormed(MacroTopics)
  {
  }

  /** In a well-formed taxonomy, the result is topic `i` exactly when topic
      `i` has a matching keyword and no earlier topic has one. */
  lemma FirstMatchIff(taxonomy: Taxonomy, text: string, i: nat)
    requires WellFormed(taxonomy) && i < |taxonomy|
    ensures FirstMatch(taxonomy, text) == taxonomy[i].0 <==>
      AnyKeyword(taxonomy[i].1, text) && forall j | 0 <= j < i :: !AnyKeyword(taxonomy[j].1, text)
  {
    if AnyKeyword(taxonomy[i].1, text) && forall j | 0 <= j < i :: !AnyKeyword(taxonomy[j].1, text) {
      FirstMatchIsFirst(taxonomy, text, i);
    }
    if FirstMatch(taxonomy, text) == taxonomy[i].0 {
      assert TopicNames(taxonomy)[i] == taxonomy[i].0;
      FirstMatchFound(taxonomy, text);
      var i' :| 0 <= i' < |taxonomy|
        && taxonomy[i'].0 == FirstMatch(taxonomy, text)
        && AnyKeyword(taxonomy[i'].1, text)
        && forall j | 0 <= j < i' :: !AnyKeyword(taxonomy[j].1, text);
      assert i' == i;
    }
  }

  /** In a well-formed taxonomy, the result is "other" exactly when no topic
      has a matching keyword. */
  lemma FirstMatchOtherIff(taxonomy: Taxonomy, text: string)
    requires WellFormed(taxonomy)
    ensures FirstMatch(taxonomy, text) == Other <==>
      forall j | 0 <= j < |taxonomy| :: !AnyKeyword(taxonomy[j].1, text)
  {
    if forall j | 0 <= j < |taxonomy| :: !AnyKeyword(taxonomy[j].1, text) {
      FirstMatchNone(taxonomy, text);
    } else {
      var j :| 0 <= j < |taxonomy| && AnyKeyword(taxonomy[j].1, text);
      FirstMatchNotOther(taxonomy, text, j);
    }
  }

  /** `classify_topic` returns topic `i` of `macro_topics` exactly when the
      lower-cased text contains a keyword of topic `i` and no keyword of an
      earlier topic. */
  lemma ClassifyFirstMatch(s: string, i: nat)
    requires i < |MacroTopics|
    ensures ClassifyText(s) == MacroTopics[i].0 <==>
      AnyKeyword(MacroTopics[i].1, Lower(s)) && forall j | 0 <= j < i :: !AnyKeyword(MacroTopics[j].1, Lower(s))
  {
    MacroTopicsWellFormed();
    FirstMatchIff(MacroTopics, Lower(s), i);
  }

  /** `classify_topic` returns "other" exactly when no keyword of any topic
      occurs in the lower-cased text. */
  lemma ClassifyOther(s: string)
    ensures ClassifyText(s) == Other <==>
      forall j | 0 <= j < |MacroTopics| :: !AnyKeyword(MacroTopics[j].1, Lower(s))
  {
    MacroTopicsWellFormed();
    FirstMatchOtherIff(MacroTopics, Lower(s));
  }

  /** Classification ignores case: classifying the lower-cased text gives
      the same topic. */
  lemma ClassifyIgnoresCase(s: string)
    ensures ClassifyText(Lower(s)) == ClassifyText(s)
  {
    LowerIdempotent(s);
  }
}
