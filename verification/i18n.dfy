/** The CLI's message lookup: a dot-separated key is resolved in the
    current locale's nested table, falling back to English, and `{name}`
    placeholders in the message are filled in from the parameters in one
    left-to-right pass. */
module I18n {

  import opened Base
  import opened Text

  // ---------------------------------------------------------------------
  // Interpolation
  // ---------------------------------------------------------------------

  /** A character of the regular-expression class `\w`. */
  predicate IsWordChar(c: char) {
    ('a' <= c <= 'z') || ('A' <= c <= 'Z') || ('0' <= c <= '9') || c == '_'
  }

  /** The length of the run of word characters starting at `i`. */
  function WordRun(s: string, i: nat): (n: nat)
    requires i <= |s|
    ensures i + n <= |s|
    ensures forall k :: i <= k < i + n ==> IsWordChar(s[k])
    ensures i + n < |s| ==> !IsWordChar(s[i + n])
    decreases |s| - i
  {
    if i < |s| && IsWordChar(s[i]) then 1 + WordRun(s, i + 1) else 0
  }

  /** `s` starts with a match of `\{(\w+)\}`: the length of the captured
      word. */
  function PlaceholderAt(s: string): (n: Option<nat>)
    ensures n.Some? ==> n.value >= 1 && n.value + 2 <= |s|
  {
    if s != [] && s[0] == '{' && WordRun(s, 1) >= 1 && 1 + WordRun(s, 1) < |s| && s[1 + WordRun(s, 1)] == '}'
    then Some(WordRun(s, 1))
    else None
  }

  /** A message split into literal characters and placeholders. */
  datatype Piece = Lit(c: char) | Hole(key: string)

  predicate IsWord(w: string) {
    |w| >= 1 && forall k :: 0 <= k < |w| ==> IsWordChar(w[k])
  }

  /** The leftmost, non-overlapping matches of `\{(\w+)\}`, as the global
      regular-expression replace finds them. */
  function Tokenize(s: string): (ps: seq<Piece>)
    ensures forall k :: 0 <= k < |ps| && ps[k].Hole? ==> IsWord(ps[k].key)
    decreases |s|
  {
    if s == [] then []
    else match PlaceholderAt(s)
      case Some(n) => [Hole(s[1..1 + n])] + Tokenize(s[n + 2..])
      case None => [Lit(s[0])] + Tokenize(s[1..])
  }

  function Braced(key: string): string {
    "{" + key + "}"
  }

  /** The text the pieces were read from. */
  function Untokenize(ps: seq<Piece>): string {
    if ps == [] then []
    else (match ps[0] case Lit(c) => [c] case Hole(k) => Braced(k)) + Untokenize(ps[1..])
  }

  /** A placeholder becomes its parameter when one is given, and stays as
      written otherwise. */
  function Fill(p: Piece, params: map<string, string>): string {
    match p
    case Lit(c) => [c]
    case Hole(k) => if k in params then params[k] else Braced(k)
  }

  function Render(ps: seq<Piece>, params: map<string, string>): string {
    if ps == [] then [] else Fill(ps[0], params) + Render(ps[1..], params)
  }

  /** `value.replace(/\{(\w+)\}/g, ...)`. Inserted parameter text is never
      scanned again. */
  function Interpolate(s: string, params: map<string, string>): string {
    Render(Tokenize(s), params)
  }

  /** Reading a message into pieces loses nothing. */
  lemma {:induction false} UntokenizeTokenize(s: string)
    ensures Untokenize(Tokenize(s)) == s
    decreases |s|
  {
    if s != [] {
      match PlaceholderAt(s)
      case Some(n) =>
        UntokenizeTokenize(s[n + 2..]);
        HoleStep(s, n);
      case None =>
        UntokenizeTokenize(s[1..]);
        LitStep(s);
    }
  }

  /** A placeholder read at the front comes back as written. */
  lemma HoleStep(s: string, n: nat)
    requires PlaceholderAt(s) == Some(n)
    requires Untokenize(Tokenize(s[n + 2..])) == s[n + 2..]
    ensures Untokenize(Tokenize(s)) == s
  {
    UntokenizeCons(Hole(s[1..1 + n]), Tokenize(s[n + 2..]));
    BracedSplit(s, n);
  }

  /** A literal character read at the front comes back as written. */
  lemma LitStep(s: string)
    requires s != [] && PlaceholderAt(s).None?
    requires Untokenize(Tokenize(s[1..])) == s[1..]
    ensures Untokenize(Tokenize(s)) == s
  {
    UntokenizeCons(Lit(s[0]), Tokenize(s[1..]));
    assert s == [s[0]] + s[1..];
  }

  lemma UntokenizeCons(p: Piece, ps: seq<Piece>)
    ensures Untokenize([p] + ps) == (match p case Lit(c) => [c] case Hole(k) => Braced(k)) + Untokenize(ps)
  {
    assert ([p] + ps)[1..] == ps;
  }

  /** A message opening with a placeholder is that placeholder followed by
      the rest. */
  lemma BracedSplit(s: string, n: nat)
    requires n + 2 <= |s| && s[0] == '{' && s[n + 1] == '}'
    ensures s == Braced(s[1..1 + n]) + s[n + 2..]
  {
    var b := Braced(s[1..1 + n]);
    assert |b| == n + 2;
    assert forall k :: 0 <= k < n + 2 ==> b[k] == s[k];
    assert s == s[..n + 2] + s[n + 2..];
  }

  /** Pieces whose placeholders have no parameter render as they were
      written. */
  lemma {:induction false} RenderUnfilled(ps: seq<Piece>, params: map<string, string>)
    requires forall k :: 0 <= k < |ps| && ps[k].Hole? ==> ps[k].key !in params
    ensures Render(ps, params) == Untokenize(ps)
  {
    if ps != [] {
      RenderUnfilled(ps[1..], params);
    }
  }

  /** A message none of whose placeholders has a parameter (in particular
      any message with no parameters at all) comes back exactly as stored. */
  lemma InterpolateUnfilled(s: string, params: map<string, string>)
    requires forall k :: 0 <= k < |Tokenize(s)| && Tokenize(s)[k].Hole? ==> Tokenize(s)[k].key !in params
    ensures Interpolate(s, params) == s
  {
    RenderUnfilled(Tokenize(s), params);
    UntokenizeTokenize(s);
  }

  /** With no parameters a message is returned as stored. */
  lemma InterpolateNoParams(s: string)
    ensures Interpolate(s, map[]) == s
  {
    InterpolateUnfilled(s, map[]);
  }

  /** A parameter whose value looks like a placeholder is inserted as is:
      `{a}` with `a = "{b}"` and `b = "x"` gives `{b}`, not `x`. */
  lemma SinglePass()
    ensures Interpolate("{a}", map["a" := "{b}", "b" := "x"]) == "{b}"
  {
    assert WordRun("{a}", 2) == 0;
    assert PlaceholderAt("{a}") == Some(1);
    assert "{a}"[3..] == [] && "{a}"[1..2] == "a";
    assert Tokenize("{a}") == [Hole("a")];
    assert Render([Hole("a")], map["a" := "{b}", "b" := "x"]) == "{b}" + Render([], map["a" := "{b}", "b" := "x"]);
  }

  // ---------------------------------------------------------------------
  // Lookup
  // ---------------------------------------------------------------------

  /** A translation table: strings and nested sections. */
  datatype Value = Str(s: string) | Obj(fields: map<string, Value>)

  /** One step of the walk: `value[key]` when `value` is an object that has
      `key`. */
  function Field(v: Value, key: string): Option<Value> {
    if v.Obj? && key in v.fields then Some(v.fields[key]) else None
  }

  /** The walk along `keys` from `v`, failing at the first missing step. */
  function Walk(v: Value, keys: seq<string>): Option<Value> {
    if keys == [] then Some(v)
    else match Field(v, keys[0])
      case Some(w) => Walk(w, keys[1..])
      case None => None
  }

  /** Walking a path in two parts is walking the first part, then the
      second from where it ended. */
  lemma {:induction false} WalkAppend(v: Value, a: seq<string>, b: seq<string>)
    ensures Walk(v, a + b) == match Walk(v, a) case Some(w) => Walk(w, b) case None => None
  {
    if a != [] {
      assert (a + b)[1..] == a[1..] + b;
      match Field(v, a[0])
      case Some(w) => WalkAppend(w, a[1..], b);
      case None =>
    } else {
      assert a + b == b;
    }
  }

  /** The loaded locales and the current one. */
  datatype State = State(locales: map<string, Value>, current: string)

  const English: string := "en"

  /** English is loaded and the current locale is a loaded one. */
  predicate Valid(st: State) {
    English in st.locales && st.current in st.locales
  }

  /** `setLocale`: a loaded locale is selected, anything else selects
      English. */
  function SetLocale(st: State, locale: string): (st': State)
    requires Valid(st)
    ensures Valid(st') && st'.locales == st.locales
    ensures locale in st.locales ==> GetLocale(st') == locale
    ensures locale !in st.locales ==> GetLocale(st') == English
  {
    if locale in st.locales then st.(current := locale) else st.(current := English)
  }

  function GetLocale(st: State): string {
    st.current
  }

  /** Selecting the locale already selected changes nothing, and selecting
      twice is selecting once. */
  lemma SetLocaleStable(st: State, locale: string)
    requires Valid(st)
    ensures SetLocale(st, GetLocale(st)) == st
    ensures SetLocale(SetLocale(st, locale), locale) == SetLocale(st, locale)
  {
  }

  /** The walk loop of `t`: step through `keys` from `root`, stopping at
      the first step that is missing. */
  method WalkKeys(root: Value, keys: seq<string>) returns (r: Option<Value>)
    ensures r == Walk(root, keys)
  {
    var value := root;
    var i := 0;
    while i < |keys|
      invariant 0 <= i <= |keys|
      invariant Walk(root, keys[..i]) == Some(value)
    {
      if value.Obj? && keys[i] in value.fields {
        WalkAppend(root, keys[..i], [keys[i]]);
        assert keys[..i + 1] == keys[..i] + [keys[i]];
        value := value.fields[keys[i]];
        i := i + 1;
      } else {
        WalkAppend(root, keys[..i], keys[i..]);
        assert keys == keys[..i] + keys[i..];
        return None;
      }
    }
    assert keys[..i] == keys;
    r := Some(value);
  }

  /** `t(keyPath, params)`: walk the current locale; at the first missing
      step restart the whole walk in English, and give up with `keyPath` if
      that fails too; a value that is not a string also gives `keyPath`; a
      string is interpolated. */
  method T(st: State, keyPath: string, params: map<string, string>) returns (r: string)
    requires Valid(st)
    ensures var keys := Split(keyPath, '.'); var here := Walk(st.locales[st.current], keys);
      var en := Walk(st.locales[English], keys);
      && (here.Some? && here.value.Str? ==> r == Interpolate(here.value.s, params))
      && (here.Some? && !here.value.Str? ==> r == keyPath)
      && (here.None? && en.Some? && en.value.Str? ==> r == Interpolate(en.value.s, params))
      && (here.None? && !(en.Some? && en.value.Str?) ==> r == keyPath)
  {
    var keys := Split(keyPath, '.');
    var value := WalkKeys(st.locales[st.current], keys);
    if value.None? {
      value := WalkKeys(st.locales[English], keys);
    }
    if value.None? || !value.value.Str? {
      return keyPath;
    }
    r := Interpolate(value.value.s, params);
  }

  /** JavaScript truthiness of a looked-up section: present and not the
      empty string. */
  predicate Truthy(v: Option<Value>) {
    v.Some? && v.value != Str("")
  }

  /** `getSection`: the current locale's section, else the English one,
      else an empty object. */
  function GetSection(st: State, section: string): (r: Value)
    requires Valid(st)
    ensures Truthy(Field(st.locales[st.current], section)) ==> Some(r) == Field(st.locales[st.current], section)
    ensures !Truthy(Field(st.locales[st.current], section)) && Truthy(Field(st.locales[English], section)) ==>
      Some(r) == Field(st.locales[English], section)
    ensures r == Obj(map[]) || Some(r) == Field(st.locales[st.current], section) || Some(r) == Field(st.locales[English], section)
  {
    var here := Field(st.locales[st.current], section);
    var en := Field(st.locales[English], section);
    if Truthy(here) then here.value else if Truthy(en) then en.value else Obj(map[])
  }

  /** `t` and `getSection` agree: when the current locale has a section,
      a dotted key into it resolves inside what `getSection` returns. */
  lemma SectionThenKey(st: State, section: string, key: string)
    requires Valid(st) && '.' !in section && '.' !in key
    requires Field(st.locales[st.current], section).Some? && Field(st.locales[st.current], section).value.Obj?
    ensures Split(section + "." + key, '.') == [section, key]
    ensures Walk(st.locales[st.current], Split(section + "." + key, '.')) == Field(GetSection(st, section), key)
  {
    SplitJoin([section, key], '.');
    assert Join([section, key], '.') == section + "." + key by {
      assert Join([section, key][1..], '.') == key;
    }
    var sec := Field(st.locales[st.current], section).value;
    assert Walk(st.locales[st.current], [section, key]) == Walk(sec, [key]);
    assert [section, key][1..] == [key];
    assert Walk(sec, [key]) == Field(sec, key) by {
      assert [key][1..] == [];
    }
  }

  // ---------------------------------------------------------------------
  // Fixtures: fragments of the English and Korean tables
  // ---------------------------------------------------------------------

  const EnFragment: Value := Obj(map[
    "install" := Obj(map[
      "installing" := Str("Installing {name}..."),
      "pluginNotFound" := Str("Plugin '{name}' not found")
    ]),
    "common" := Obj(map["yes" := Str("yes")])
  ])

  /** A Korean fragment that lacks `install.pluginNotFound`. */
  const KoFragment: Value := Obj(map[
    "install" := Obj(map["installing" := Str("{name} 설치 중...")])
  ])

  const Fixture: State := State(map["en" := EnFragment, "ko" := KoFragment], "ko")

  /** The dotted keys of the fixtures split into their steps. */
  lemma FixtureKeys()
    ensures Split("install" + "." + "pluginNotFound", '.') == ["install", "pluginNotFound"]
    ensures Split("install" + "." + "installing", '.') == ["install", "installing"]
    ensures Split("install", '.') == ["install"]
  {
    SplitTwo("install", "pluginNotFound");
    SplitTwo("install", "installing");
    SplitJoin(["install"], '.');
  }

  /** A key of two dot-free steps splits into those steps. */
  lemma SplitTwo(a: string, b: string)
    requires '.' !in a && '.' !in b
    ensures Split(a + "." + b, '.') == [a, b]
  {
    SplitJoin([a, b], '.');
    assert [a, b][1..] == [b];
    assert Join([a, b], '.') == a + "." + b;
  }

  /** Walking a one-step path is one field lookup. */
  lemma WalkOne(v: Value, a: string)
    ensures Walk(v, [a]) == Field(v, a)
  {
    assert [a][1..] == [];
  }

  /** Walking a two-step path is two field lookups. */
  lemma WalkTwo(v: Value, a: string, b: string)
    ensures Walk(v, [a, b]) == match Field(v, a) case Some(w) => Field(w, b) case None => None
  {
    assert [a, b][1..] == [b];
    match Field(v, a)
    case Some(w) => WalkOne(w, b);
    case None =>
  }

  /** A key the Korean fragment lacks falls back to the English message
      (the key `install.pluginNotFound` splits into these two steps, see
      `FixtureKeys`). */
  lemma FixtureFallback()
    ensures Walk(KoFragment, ["install", "pluginNotFound"]).None?
    ensures Walk(EnFragment, ["install", "pluginNotFound"]) == Some(Str("Plugin '{name}' not found"))
  {
    WalkTwo(KoFragment, "install", "pluginNotFound");
    WalkTwo(EnFragment, "install", "pluginNotFound");
  }

  /** A key the Korean fragment has resolves there; a whole section is not
      a message; an unknown locale selects English. */
  lemma FixtureLookups()
    ensures Walk(KoFragment, ["install", "installing"]) == Some(Str("{name} 설치 중..."))
    ensures Walk(EnFragment, ["install"]).Some? && Walk(EnFragment, ["install"]).value.Obj?
    ensures GetLocale(SetLocale(Fixture, "fr")) == "en"
  {
    WalkTwo(KoFragment, "install", "installing");
    WalkOne(EnFragment, "install");
  }
}
