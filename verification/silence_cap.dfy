/** The silence-cap classifier: how much trailing silence a narrated line may
    keep, judged from how its (Korean) text ends. Caps are in centiseconds. */
module SilenceCap {

  import opened Base
  import opened Text

  /** Which rule decided the cap; the names are the source's reason strings. */
  datatype Reason = Empty | Punctuation | Comma | Ending | Continuing | Other

  /** The three configurable caps: after a sentence, after a comma
      connector, and inside a continuing phrase. */
  datatype Caps = Caps(sentence: int, comma: int, continuing: int)

  /** The defaults 0.5 s, 0.3 s and 0.15 s. */
  const DefaultCaps: Caps := Caps(50, 30, 15)

  datatype Classification = Classification(cap: int, reason: Reason)

  /** Polite and declarative sentence-final endings. */
  const SentenceEndings: seq<string> := [
    "니다", "습니다", "겁니다", "봅니다",
    "해요", "돼요", "네요", "군요", "나요",
    "예요", "거예요", "볼게요", "할게요", "드릴게요", "할거예요",
    "겠죠", "이죠", "거죠", "하죠", "있죠", "같죠", "맞죠",
    "세요", "주세요", "하세요", "보세요",
    "시다", "읍시다", "봅시다", "볼까요",
    "거든요", "잖아요", "던데요", "텐데요",
    "구요", "있구요"
  ]

  /** Connective endings followed by a comma. */
  const CommaConnectors: seq<string> := [
    "고,", "서,", "면,", "며,", "지만,", "는데,", "니까,", "으며,"
  ]

  /** Case and topic particles and conjunctive endings. */
  const ContinueParticles: seq<string> := [
    "고", "서", "면", "는데", "니까", "지만", "하여", "해서", "으며",
    "으로", "에서", "과", "와", "의", "를", "을", "에", "는", "은",
    "부터", "까지", "처럼", "만큼", "대로", "하고", "때문에",
    "위해", "통해", "따라", "관해", "대해"
  ]

  /** The characters of the source's `'.!?'`. */
  const PunctuationMarks: seq<char> := ".!?"

  predicate EndsWithAny(text: string, table: seq<string>) {
    exists k :: 0 <= k < |table| && EndsWith(text, table[k])
  }

  /** The source's `for suffix in table: if text.endswith(suffix)` loop:
      the index of the first entry of `table` that `text` ends with. */
  function FirstSuffix(text: string, table: seq<string>): (r: Option<nat>)
    ensures r.None? <==> !EndsWithAny(text, table)
    ensures r.Some? ==>
      && r.value < |table|
      && EndsWith(text, table[r.value])
      && forall k :: 0 <= k < r.value ==> !EndsWith(text, table[k])
  {
    if table == [] then None
    else if EndsWith(text, table[0]) then Some(0)
    else match FirstSuffix(text, table[1..])
      case None => None
      case Some(k) => Some(k + 1)
  }

  /** The cap that goes with each reason. */
  function CapOf(reason: Reason, caps: Caps): int {
    match reason
    case Punctuation => caps.sentence
    case Ending => caps.sentence
    case Comma => caps.comma
    case _ => caps.continuing
  }

  /** The three suffix tables, in the order the classifier consults them
      after punctuation. */
  datatype Tables = Tables(comma: seq<string>, endings: seq<string>, particles: seq<string>)

  const SourceTables: Tables := Tables(CommaConnectors, SentenceEndings, ContinueParticles)

  /** `classify_ending` over given suffix tables: strip the text, then the
      first matching rule wins: empty text, a final `.`/`!`/`?`, a comma
      connector, a sentence ending, a continuing particle, else "other". */
  function ClassifyWith(text: string, caps: Caps, tables: Tables): (c: Classification)
    ensures c.cap == CapOf(c.reason, caps)
    ensures c.cap == caps.sentence || c.cap == caps.comma || c.cap == caps.continuing
    ensures var t := Strip(text);
      && (c.reason == Empty <==> t == [])
      && (c.reason == Punctuation <==> t != [] && t[|t| - 1] in PunctuationMarks)
      && (c.reason == Comma <==>
            t != [] && t[|t| - 1] !in PunctuationMarks && EndsWithAny(t, tables.comma))
      && (c.reason == Ending <==>
            && t != [] && t[|t| - 1] !in PunctuationMarks
            && !EndsWithAny(t, tables.comma) && EndsWithAny(t, tables.endings))
      && (c.reason == Continuing <==>
            && t != [] && t[|t| - 1] !in PunctuationMarks
            && !EndsWithAny(t, tables.comma) && !EndsWithAny(t, tables.endings)
            && EndsWithAny(t, tables.particles))
  {
    var t := Strip(text);
    if t == [] then Classification(caps.continuing, Empty)
    else if t[|t| - 1] in PunctuationMarks then Classification(caps.sentence, Punctuation)
    else if FirstSuffix(t, tables.comma).Some? then Classification(caps.comma, Comma)
    else if FirstSuffix(t, tables.endings).Some? then Classification(caps.sentence, Ending)
    else if FirstSuffix(t, tables.particles).Some? then Classification(caps.continuing, Continuing)
    else Classification(caps.continuing, Other)
  }

  /** `classify_ending` with the source's own tables. */
  function ClassifyEnding(text: string, caps: Caps): Classification {
    ClassifyWith(text, caps, SourceTables)
  }

  /** One row of the ordered rule table: a set of suffixes, the cap to use
      and the reason to report. */
  datatype Rule = Rule(suffixes: seq<string>, cap: int, reason: Reason)

  /** The classifier's precedence written as data, first row first. */
  function Rules(caps: Caps, tables: Tables): seq<Rule> {
    [ Rule([".", "!", "?"], caps.sentence, Punctuation),
      Rule(tables.comma, caps.comma, Comma),
      Rule(tables.endings, caps.sentence, Ending),
      Rule(tables.particles, caps.continuing, Continuing) ]
  }

  /** First-match-wins evaluation of a rule table. */
  function ApplyRules(t: string, rules: seq<Rule>, fallback: Classification): Classification {
    if rules == [] then fallback
    else if EndsWithAny(t, rules[0].suffixes) then Classification(rules[0].cap, rules[0].reason)
    else ApplyRules(t, rules[1..], fallback)
  }

  /** The reference classifier: empty text first, then the rule table. */
  function ClassifyByTable(text: string, caps: Caps, tables: Tables): Classification {
    var t := Strip(text);
    if t == [] then Classification(caps.continuing, Empty)
    else ApplyRules(t, Rules(caps, tables), Classification(caps.continuing, Other))
  }

  /** A non-empty string ends with one of `.`, `!`, `?` exactly when its last
      character is one of them. */
  lemma PunctuationAsSuffix(t: string)
    requires t != []
    ensures EndsWithAny(t, [".", "!", "?"]) <==> t[|t| - 1] in PunctuationMarks
  {
    var table: seq<string> := [".", "!", "?"];
    if t[|t| - 1] in PunctuationMarks {
      var k := if t[|t| - 1] == '.' then 0 else if t[|t| - 1] == '!' then 1 else 2;
      assert t[|t| - 1..] == table[k];
    }
    if EndsWithAny(t, table) {
      var k :| 0 <= k < |table| && EndsWith(t, table[k]);
      assert t[|t| - 1] == t[|t| - 1..][0];
    }
  }

  /** The cascade of `classify_ending` agrees with the rule table on every
      input: the precedence is exactly the table's row order. */
  lemma ClassifyMatchesRuleTable(text: string, caps: Caps, tables: Tables)
    ensures ClassifyWith(text, caps, tables) == ClassifyByTable(text, caps, tables)
  {
    var t := Strip(text);
    var rules := Rules(caps, tables);
    var other := Classification(caps.continuing, Other);
    if t != [] {
      PunctuationAsSuffix(t);
      assert rules[1..][1..][1..][1..] == [];
      assert ApplyRules(t, rules[1..][1..][1..], other)
        == if EndsWithAny(t, tables.particles) then Classification(caps.continuing, Continuing) else other;
      assert ApplyRules(t, rules[1..][1..], other)
        == if EndsWithAny(t, tables.endings) then Classification(caps.sentence, Ending)
           else ApplyRules(t, rules[1..][1..][1..], other);
      assert ApplyRules(t, rules[1..], other)
        == if EndsWithAny(t, tables.comma) then Classification(caps.comma, Comma)
           else ApplyRules(t, rules[1..][1..], other);
    }
  }

  /** A final `.`, `!` or `?` gives the sentence cap whatever the suffix
      tables say. */
  lemma PunctuationWins(text: string, caps: Caps, tables: Tables, tables': Tables)
    requires var t := Strip(text); t != [] && t[|t| - 1] in PunctuationMarks
    ensures ClassifyWith(text, caps, tables) == ClassifyWith(text, caps, tables')
    ensures ClassifyWith(text, caps, tables) == Classification(caps.sentence, Punctuation)
  {
  }

  /** A text whose last character ends no entry of the table matches none. */
  lemma NoSuffixByLastChar(t: string, table: seq<string>, finals: set<char>)
    requires forall k :: 0 <= k < |table| ==> table[k] != [] && table[k][|table[k]| - 1] in finals
    requires t != [] && t[|t| - 1] !in finals
    ensures !EndsWithAny(t, table)
  {
  }

  /** Every comma connector ends with a comma. */
  lemma CommaConnectorsEndWithComma()
    ensures forall k :: 0 <= k < |CommaConnectors| ==>
      CommaConnectors[k] != [] && CommaConnectors[k][|CommaConnectors[k]| - 1] in {','}
  {
  }

  /** Every sentence ending ends with one of 다, 요, 죠. */
  lemma SentenceEndingsFinals()
    ensures forall k :: 0 <= k < |SentenceEndings| ==>
      SentenceEndings[k] != [] && SentenceEndings[k][|SentenceEndings[k]| - 1] in {'다', '요', '죠'}
  {
  }

  /** Whitespace-only text is "empty" and gets the continuing cap. */
  lemma ClassifyBlank()
    ensures ClassifyEnding(" \t", DefaultCaps) == Classification(15, Empty)
  {
    assert Strip(" \t") == [];
  }

  /** A final period wins before any suffix table is consulted. */
  lemma ClassifyPeriod()
    ensures ClassifyEnding("준비했습니다.", DefaultCaps) == Classification(50, Punctuation)
  {
    StripUnchanged("준비했습니다.");
  }

  /** A comma connector gives the comma cap. */
  lemma ClassifyCommaConnector()
    ensures ClassifyEnding("설치하고,", DefaultCaps) == Classification(30, Comma)
  {
    var t := "설치하고,";
    StripUnchanged(t);
    assert EndsWithAny(t, SourceTables.comma) by {
      assert EndsWith(t, SourceTables.comma[0]);
    }
  }

  /** A polite ending gives the sentence cap. */
  lemma ClassifySentenceEnding()
    ensures ClassifyEnding("설치합니다", DefaultCaps) == Classification(50, Ending)
  {
    var t := "설치합니다";
    StripUnchanged(t);
    CommaConnectorsEndWithComma();
    NoSuffixByLastChar(t, CommaConnectors, {','});
    assert EndsWith(t, SentenceEndings[0]);
  }

  /** A trailing particle gives the continuing cap. */
  lemma ClassifyParticle()
    ensures ClassifyEnding("터미널에서", DefaultCaps) == Classification(15, Continuing)
  {
    var t := "터미널에서";
    StripUnchanged(t);
    ParticleNotComma(t);
    ParticleNotEnding(t);
    ParticleEnds(t);
  }

  lemma ParticleEnds(t: string)
    requires t == "터미널에서"
    ensures EndsWithAny(t, ContinueParticles)
  {
    assert t[|t| - 1..] == ContinueParticles[1];
    assert EndsWith(t, ContinueParticles[1]);
  }

  lemma ParticleNotComma(t: string)
    requires t == "터미널에서"
    ensures !EndsWithAny(t, CommaConnectors)
  {
    CommaConnectorsEndWithComma();
    NoSuffixByLastChar(t, CommaConnectors, {','});
  }

  lemma ParticleNotEnding(t: string)
    requires t == "터미널에서"
    ensures !EndsWithAny(t, SentenceEndings)
  {
    SentenceEndingsFinals();
    NoSuffixByLastChar(t, SentenceEndings, {'다', '요', '죠'});
  }
}
