/** Parsing CUR usage types: an ordered list of suffix patterns behind an optional region prefix. */
module CurUsageType {
  import opened Domain

  datatype TokenType = Input | Output | CacheRead | CacheWrite
  /** The token types that have a suffix of their own kind. */
  type Side = t: TokenType | t.Input? || t.Output? witness Input

  datatype Tier = Standard | Priority | Flex

  datatype Parsed = Parsed(model: string, tokenType: TokenType, endpoint: Endpoint, tier: Tier, crossRegion: bool)

  // ---------- characters and substrings ----------

  predicate Upper(c: char) { 'A' <= c <= 'Z' }

  predicate Digit(c: char) { '0' <= c <= '9' }

  predicate WordChar(c: char) { Upper(c) || Digit(c) || 'a' <= c <= 'z' || c == '_' }

  /** The characters that `.` does not match. */
  predicate LineEnd(c: char) { c == '\n' || c == '\r' || c == '\U{2028}' || c == '\U{2029}' }

  predicate OneLine(s: string) { forall i :: 0 <= i < |s| ==> !LineEnd(s[i]) }

  predicate Word(s: string) { s != [] && forall i :: 0 <= i < |s| ==> WordChar(s[i]) }

  predicate EndsWith(s: string, suffix: string) {
    |suffix| <= |s| && s[|s| - |suffix|..] == suffix
  }

  predicate At(s: string, m: string, i: int) {
    0 <= i <= |s| - |m| && s[i..i + |m|] == m
  }

  function IndexFrom(s: string, m: string, k: nat): (r: int)
    ensures r == -1 || k <= r <= |s| - |m|
    decreases |s| - k
  {
    if k + |m| > |s| then -1 else if At(s, m, k) then k else IndexFrom(s, m, k + 1)
  }

  /** The first position of `m` in `s`, or -1. */
  function IndexOf(s: string, m: string): (r: int)
    ensures r == -1 || 0 <= r <= |s| - |m|
  {
    IndexFrom(s, m, 0)
  }

  lemma {:induction false} FirstFrom(s: string, m: string, k: nat)
    ensures var r := IndexFrom(s, m, k);
            if r == -1 then forall i :: k <= i ==> !At(s, m, i)
            else k <= r && At(s, m, r) && forall i :: k <= i < r ==> !At(s, m, i)
    decreases |s| - k
  {
    if |s| < k + |m| {
    } else {
      FirstFrom(s, m, k + 1);
    }
  }

  lemma IndexIs(s: string, m: string, r: nat)
    requires At(s, m, r) && forall i :: 0 <= i < r ==> !At(s, m, i)
    ensures IndexOf(s, m) == r
  {
    FirstFrom(s, m, 0);
  }

  lemma IndexIsNone(s: string, m: string)
    requires forall i :: 0 <= i ==> !At(s, m, i)
    ensures IndexOf(s, m) == -1
  {
    FirstFrom(s, m, 0);
  }

  // ---------- the parser ----------

  const CACHE_READ: string := "-cache-read-input-token-count"
  const CACHE_WRITE: string := "-cache-write-input-token-count"

  /** Two to four capitals, a digit and a hyphen. */
  predicate RegionPrefix(s: string, letters: nat) {
    letters + 2 <= |s| && (forall i :: 0 <= i < letters ==> Upper(s[i])) && Digit(s[letters]) && s[letters + 1] == '-'
  }

  function StripRegion(s: string): string {
    if RegionPrefix(s, 4) then s[6..]
    else if RegionPrefix(s, 3) then s[5..]
    else if RegionPrefix(s, 2) then s[4..]
    else s
  }

  function TokenPart(t: Side): string {
    if t.Input? then "-input-tokens" else "-output-tokens"
  }

  function TierWord(tier: Tier): string {
    match tier
    case Standard => "standard"
    case Priority => "priority"
    case Flex => "flex"
  }

  function TierPart(tier: Tier): string {
    "-" + TierWord(tier)
  }

  const CROSS_REGION: string := "-cross-region-global"

  /** `^(.+)suffix$`. */
  function SuffixMatch(body: string, suffix: string): Option<string> {
    var n := |body| - |suffix|;
    if n > 0 && EndsWith(body, suffix) && OneLine(body[..n]) then Some(body[..n]) else None
  }

  /** Where the word characters at the end of `s` begin. */
  function WordStart(s: string): (k: nat)
    ensures k <= |s|
  {
    if s == [] || !WordChar(s[|s| - 1]) then |s| else WordStart(s[..|s| - 1])
  }

  /** `^(.+)-mantle-input-tokens-(\w+)$`, or the same for output: the hyphen ends the run of word characters. */
  function MantleMatch(body: string, t: Side): Option<(string, string)> {
    var k := WordStart(body);
    match SuffixMatch(body[..k], MantlePart(t))
    case Some(model) => if k < |body| then Some((model, body[k..])) else None
    case None => None
  }

  function MantlePart(t: Side): string {
    "-mantle" + TokenPart(t) + "-"
  }

  function ParseTier(raw: string): Tier {
    if raw == "priority" then Priority else if raw == "flex" then Flex else Standard
  }

  /** The word of a metrics usage type names the tier; any word but two is standard. */
  lemma TierOfWord(word: string)
    ensures ParseTier(word) == if word == "priority" then Priority else if word == "flex" then Flex else Standard
    ensures ParseTier("standard") == Standard
  {
  }

  /** The first side whose suffix fits. */
  function SideMatch(body: string, ending: string): Option<(string, Side)> {
    match SuffixMatch(body, TokenPart(Input) + ending)
    case Some(model) => Some((model, Input))
    case None =>
      match SuffixMatch(body, TokenPart(Output) + ending)
      case Some(model) => Some((model, Output))
      case None => None
  }

  function TieredMatch(body: string): Option<(string, Side, Tier)> {
    match SideMatch(body, TierPart(Priority))
    case Some(found) => Some((found.0, found.1, Priority))
    case None =>
      match SideMatch(body, TierPart(Flex))
      case Some(found) => Some((found.0, found.1, Flex))
      case None => None
  }

  function ParseUsageType(usageType: string): Option<Parsed> {
    var body := StripRegion(usageType);
    if body == "" then None else ParseBody(body, IndexOf(body, CACHE_READ), IndexOf(body, CACHE_WRITE),
        ParseTokens(body))
  }

  /** The cache patterns come first; a marker counts only behind a non-empty model. */
  function ParseBody(body: string, read: int, write: int, tokens: Option<Parsed>): Option<Parsed>
    requires read <= |body| && write <= |body|
  {
    if read > 0 then Some(Parsed(body[..read], CacheRead, BedrockRuntime, Standard, false))
    else if write > 0 then Some(Parsed(body[..write], CacheWrite, BedrockRuntime, Standard, false))
    else tokens
  }

  /** The patterns after the cache ones. */
  function ParseTokens(body: string): Option<Parsed> {
    FirstOf(MantleMatch(body, Input), MantleMatch(body, Output), SideMatch(body, CROSS_REGION), TieredMatch(body),
        SideMatch(body, ""))
  }

  /** The order of the patterns after the cache ones. */
  function FirstOf(input: Option<(string, string)>, output: Option<(string, string)>, cross: Option<(string, Side)>,
                   tiered: Option<(string, Side, Tier)>, plain: Option<(string, Side)>): Option<Parsed>
  {
    if input.Some? then Some(Parsed(input.value.0, Input, BedrockMantle, ParseTier(input.value.1), false))
    else if output.Some? then Some(Parsed(output.value.0, Output, BedrockMantle, ParseTier(output.value.1), false))
    else if cross.Some? then Some(Parsed(cross.value.0, cross.value.1, BedrockRuntime, Standard, true))
    else if tiered.Some? then Some(Parsed(tiered.value.0, tiered.value.1, BedrockRuntime, tiered.value.2, false))
    else if plain.Some? then Some(Parsed(plain.value.0, plain.value.1, BedrockRuntime, Standard, false))
    else None
  }

  // ---------- the documented forms ----------

  datatype Form =
    | Plain(t: Side)
    | Tiered(t: Side, tier: Tier)
    | Mantle(t: Side, word: string)
    | CrossRegion(t: Side)
    | CacheReads
    | CacheWrites

  /** Only priority and flex have a suffix; the last word of a metrics form is not empty. */
  predicate ValidForm(form: Form) {
    && (form.Tiered? ==> form.tier != Standard)
    && (form.Mantle? ==> form.word != "" && forall i :: 0 <= i < |form.word| ==>
          var c := form.word[i]; 'A' <= c <= 'Z' || 'a' <= c <= 'z' || '0' <= c <= '9' || c == '_')
  }

  /** What follows the token part of a runtime form. */
  function Ending(form: Form): string {
    match form
    case CrossRegion(_) => CROSS_REGION
    case Tiered(_, tier) => TierPart(tier)
    case _ => ""
  }

  function Suffix(form: Form): string {
    match form
    case Mantle(t, word) => MantlePart(t) + word
    case CacheReads => CACHE_READ
    case CacheWrites => CACHE_WRITE
    case _ => TokenPart(form.t) + Ending(form)
  }

  function Meaning(model: string, form: Form): Parsed {
    match form
    case Plain(t) => Parsed(model, t, BedrockRuntime, Standard, false)
    case Tiered(t, tier) => Parsed(model, t, BedrockRuntime, tier, false)
    case Mantle(t, word) =>
      var tier := if word == "priority" then Priority else if word == "flex" then Flex else Standard;
      Parsed(model, t, BedrockMantle, tier, false)
    case CrossRegion(t) => Parsed(model, t, BedrockRuntime, Standard, true)
    case CacheReads => Parsed(model, CacheRead, BedrockRuntime, Standard, false)
    case CacheWrites => Parsed(model, CacheWrite, BedrockRuntime, Standard, false)
  }

  /** How the forms are written. */
  lemma FormTexts(word: string)
    ensures Suffix(Plain(Input)) == "-input-tokens" + "" && Suffix(Plain(Output)) == "-output-tokens" + ""
    ensures Suffix(Mantle(Input, word)) == "-mantle" + "-input-tokens" + "-" + word
    ensures Suffix(Mantle(Output, word)) == "-mantle" + "-output-tokens" + "-" + word
    ensures Suffix(CacheReads) == "-cache-read-input-token-count"
    ensures Suffix(CacheWrites) == "-cache-write-input-token-count"
  {
  }

  lemma TieredTexts()
    ensures Suffix(Tiered(Input, Priority)) == "-input-tokens" + ("-" + "priority")
    ensures Suffix(Tiered(Input, Flex)) == "-input-tokens" + ("-" + "flex")
    ensures Suffix(Tiered(Output, Priority)) == "-output-tokens" + ("-" + "priority")
    ensures Suffix(Tiered(Output, Flex)) == "-output-tokens" + ("-" + "flex")
  {
  }

  lemma CrossRegionTexts()
    ensures Suffix(CrossRegion(Input)) == "-input-tokens" + "-cross-region-global"
    ensures Suffix(CrossRegion(Output)) == "-output-tokens" + "-cross-region-global"
  {
  }

  /** Two to four capitals and a digit. */
  predicate RegionCode(r: string) {
    && 3 <= |r| <= 5
    && (forall i :: 0 <= i < |r| - 1 ==> 'A' <= r[i] <= 'Z') && '0' <= r[|r| - 1] <= '9'
  }

  function Render(region: string, model: string, form: Form): string {
    region + "-" + model + Suffix(form)
  }

  lemma StripsTheRegion(region: string, rest: string)
    requires RegionCode(region)
    ensures StripRegion(region + "-" + rest) == rest
  {
    var s := region + "-" + rest;
    var n := |region| - 1;
    assert forall i :: 0 <= i < |region| ==> s[i] == region[i];
    assert RegionPrefix(s, n);
    assert !Upper(s[n]);
    assert s[|region| + 1..] == rest;
  }

  // ---------- each pattern matches exactly the splits it describes ----------

  lemma SuffixMatchIsSplit(body: string, suffix: string, model: string)
    ensures SuffixMatch(body, suffix) == Some(model) <==> body == model + suffix && model != "" && OneLine(model)
  {
    var n := |body| - |suffix|;
    if n >= 0 {
      assert body == body[..n] + body[n..];
    }
    if body == model + suffix {
      assert body[..n] == model && body[n..] == suffix;
    }
  }

  lemma {:induction false} WordStartOfSplit(s: string, word: string)
    requires (forall i :: 0 <= i < |word| ==> WordChar(word[i])) && (s == "" || !WordChar(s[|s| - 1]))
    ensures WordStart(s + word) == |s|
    decreases |word|
  {
    if word == "" {
      assert s + word == s;
    } else {
      var n := |word| - 1;
      assert (s + word)[..|s + word| - 1] == s + word[..n];
      WordStartOfSplit(s, word[..n]);
    }
  }

  lemma {:induction false} WordTail(s: string)
    ensures forall i :: WordStart(s) <= i < |s| ==> WordChar(s[i])
  {
    if s == "" || !WordChar(s[|s| - 1]) {
    } else {
      WordTail(s[..|s| - 1]);
    }
  }

  lemma MantlePartEnds(t: Side)
    ensures |MantlePart(t)| > 0 && MantlePart(t)[|MantlePart(t)| - 1] == '-'
  {
  }

  lemma MantleMatchIsSplit(body: string, t: Side, model: string, word: string)
    ensures MantleMatch(body, t) == Some((model, word)) <==>
              body == model + MantlePart(t) + word && model != "" && OneLine(model) && Word(word)
  {
    var part := MantlePart(t);
    MantlePartEnds(t);
    if body == model + part + word && model != "" && OneLine(model) && Word(word) {
      var front := model + part;
      assert front[|front| - 1] == '-';
      WordStartOfSplit(front, word);
      assert body[..|front|] == front && body[|front|..] == word;
      SuffixMatchIsSplit(front, part, model);
    }
    if MantleMatch(body, t) == Some((model, word)) {
      var k := WordStart(body);
      SuffixMatchIsSplit(body[..k], part, model);
      WordTail(body);
      assert body == body[..k] + body[k..];
      assert forall i :: 0 <= i < |word| ==> word[i] == body[k + i];
    }
  }

  // ---------- the patterns do not compete ----------

  /** A body that is `model + suffix` for some non-empty single-line model. */
  predicate Fits(body: string, suffix: string) {
    SuffixMatch(body, suffix).Some?
  }

  predicate LastIs(s: string, c: char) {
    s != "" && s[|s| - 1] == c
  }

  lemma FitsLast(body: string, suffix: string, c: char)
    requires Fits(body, suffix) && LastIs(suffix, c)
    ensures LastIs(body, c)
  {
    SuffixMatchIsSplit(body, suffix, SuffixMatch(body, suffix).value);
  }

  /** The two sides of one ending differ in the character before `input`, which is a `t` in `output`. */
  lemma SidesAreDisjoint(body: string, ending: string)
    ensures !(Fits(body, TokenPart(Input) + ending) && Fits(body, TokenPart(Output) + ending))
  {
    var a, b := TokenPart(Input) + ending, TokenPart(Output) + ending;
    assert |b| == |a| + 1 && a[0] == '-' && b[1] == 'o';
    if Fits(body, a) { FitsAt(body, a, 0); }
    if Fits(body, b) { FitsAt(body, b, 1); }
  }

  lemma FitsAt(body: string, suffix: string, k: nat)
    requires Fits(body, suffix) && k < |suffix|
    ensures |body| > |suffix| && body[|body| - |suffix| + k] == suffix[k]
  {
    SuffixMatchIsSplit(body, suffix, SuffixMatch(body, suffix).value);
  }

  /** The forms of the runtime endpoint without cache. */
  predicate Runtime(form: Form) {
    form.Plain? || form.CrossRegion? || (form.Tiered? && form.tier != Standard)
  }

  /** Plain bodies end in `s`, cross-region ones in `l`, priority ones in `y` and flex ones in `x`. */
  function LastOf(form: Form): char
    requires Runtime(form)
  {
    match form
    case Plain(_) => 's'
    case CrossRegion(_) => 'l'
    case Tiered(_, tier) => if tier == Priority then 'y' else 'x'
  }

  lemma SuffixLast(form: Form)
    requires Runtime(form)
    ensures LastIs(Suffix(form), LastOf(form))
  {
  }

  /** No body fits two of the runtime patterns, so their order cannot matter. */
  lemma AtMostOneRuntimeForm(body: string, f: Form, g: Form)
    requires Runtime(f) && Runtime(g) && Fits(body, Suffix(f)) && Fits(body, Suffix(g))
    ensures f == g
  {
    SuffixLast(f);
    SuffixLast(g);
    FitsLast(body, Suffix(f), LastOf(f));
    FitsLast(body, Suffix(g), LastOf(g));
    SameLast(f, g);
    SidesAreDisjoint(body, Ending(f));
  }

  lemma SameLast(f: Form, g: Form)
    requires Runtime(f) && Runtime(g) && LastOf(f) == LastOf(g)
    ensures Ending(f) == Ending(g) && (f.t == g.t ==> f == g)
  {
  }

  /** The last word of a body, behind its last hyphen, is unique. */
  lemma LastWordIsUnique(front: string, word: string, front': string, word': string)
    requires LastIs(front, '-') && LastIs(front', '-') && Word(word) && Word(word') && front + word == front' + word'
    ensures front == front' && word == word'
  {
    WordStartOfSplit(front, word);
    WordStartOfSplit(front', word');
    assert front == (front + word)[..|front|] && front' == (front' + word')[..|front'|];
    assert word == (front + word)[|front|..] && word' == (front' + word')[|front'|..];
  }

  // ---------- the one overlap: metrics bodies and tiered bodies ----------

  const MANTLE: string := "-mantle"

  /** A tiered body whose model ends in `-mantle` is read as a metrics body. */
  predicate ReadAsMantle(model: string, form: Form) {
    form.Tiered? && EndsWith(model, MANTLE) && |model| > |MANTLE|
  }

  /** A runtime suffix is a front that ends in a hyphen, and a word. */
  function FrontOf(form: Form): string
    requires Runtime(form)
  {
    if form.Tiered? then TokenPart(form.t) + "-"
    else if form.CrossRegion? then TokenPart(form.t) + "-cross-region-"
    else if form.t == Input then "-input-" else "-output-"
  }

  function WordOf(form: Form): string
    requires Runtime(form)
  {
    if form.Tiered? then TierWord(form.tier)
    else if form.CrossRegion? then "global"
    else "tokens"
  }

  lemma PlainIsFrontAndWord(t: Side)
    ensures TokenPart(t) == (if t == Input then "-input-" else "-output-") + "tokens"
  {
  }

  lemma CrossRegionIsFrontAndWord()
    ensures CROSS_REGION == "-cross-region-" + "global"
  {
  }

  lemma SuffixIsFrontAndWord(form: Form)
    requires Runtime(form)
    ensures Suffix(form) == FrontOf(form) + WordOf(form)
  {
    if form.Tiered? {
      assert Suffix(form) == TokenPart(form.t) + "-" + TierWord(form.tier);
    } else if form.CrossRegion? {
      CrossRegionIsFrontAndWord();
      assert TokenPart(form.t) + ("-cross-region-" + "global") == (TokenPart(form.t) + "-cross-region-") + "global";
    } else {
      PlainIsFrontAndWord(form.t);
      assert TokenPart(form.t) + "" == TokenPart(form.t);
    }
  }

  lemma FrontAndWord(form: Form)
    requires Runtime(form)
    ensures LastIs(FrontOf(form), '-') && Word(WordOf(form))
    ensures |FrontOf(form)| > 1 && (!form.Tiered? ==> FrontOf(form)[|FrontOf(form)| - 2] != 's')
    ensures form.Tiered? ==> ParseTier(WordOf(form)) == form.tier
  {
  }

  lemma FrontsAgree(model: string, form: Form, t: Side, m: string, word: string)
    requires Runtime(form) && Word(word) && model + Suffix(form) == m + MantlePart(t) + word
    ensures model + FrontOf(form) == m + MantlePart(t) && WordOf(form) == word
  {
    SuffixIsFrontAndWord(form);
    FrontAndWord(form);
    MantlePartEnds(t);
    var front, front' := model + FrontOf(form), m + MantlePart(t);
    assert front + WordOf(form) == model + Suffix(form);
    LastWordIsUnique(front, WordOf(form), front', word);
  }

  /** Before the last hyphen of a metrics front stands the `s` of `tokens`, which only a tiered front has there. */
  lemma OnlyTieredFronts(model: string, form: Form, t: Side, m: string)
    requires Runtime(form) && model + FrontOf(form) == m + MantlePart(t)
    ensures form.Tiered?
  {
    FrontAndWord(form);
    var front := model + FrontOf(form);
    assert front[|front| - 2] == FrontOf(form)[|FrontOf(form)| - 2];
    assert front[|front| - 2] == MantlePart(t)[|MantlePart(t)| - 2] == 's';
  }

  /** A body fits a metrics pattern and a runtime pattern only if it is tiered and its model ends in `-mantle`. */
  lemma MantleMeetsOnlyTiered(model: string, form: Form, t: Side, m: string, word: string)
    requires Runtime(form) && Word(word) && m != ""
    requires model + Suffix(form) == m + MantlePart(t) + word
    ensures form.Tiered? && form.t == t && model == m + MANTLE && ParseTier(word) == form.tier
    ensures ReadAsMantle(model, form)
  {
    FrontsAgree(model, form, t, m, word);
    OnlyTieredFronts(model, form, t, m);
    FrontAndWord(form);
    MantleSplits(m, t);
    SameSide(model, form.t, m + MANTLE, t);
    DropEnding(m);
  }

  lemma SameSide(a: string, t: Side, b: string, u: Side)
    requires a + (TokenPart(t) + "-") == b + (TokenPart(u) + "-")
    ensures t == u && a == b
  {
    var s, n := a + (TokenPart(t) + "-"), |a + (TokenPart(t) + "-")|;
    assert s[n - 14] == if t == Input then '-' else 'o';
    assert s[n - 14] == if u == Input then '-' else 'o';
    assert a == s[..|a|] && b == s[..|b|];
  }

  // ---------- reading back the forms without cache ----------

  lemma OwnSide(body: string, form: Form, model: string)
    requires Runtime(form) && SuffixMatch(body, Suffix(form)) == Some(model)
    ensures SideMatch(body, Ending(form)) == Some((model, form.t))
  {
    SidesAreDisjoint(body, Ending(form));
  }

  lemma NoOtherSide(body: string, form: Form, other: Form)
    requires Runtime(form) && Fits(body, Suffix(form)) && Runtime(other) && Ending(other) != Ending(form)
    ensures SideMatch(body, Ending(other)).None?
  {
    var input, output := WithSide(other, Input), WithSide(other, Output);
    if Fits(body, Suffix(input)) { AtMostOneRuntimeForm(body, form, input); }
    if Fits(body, Suffix(output)) { AtMostOneRuntimeForm(body, form, output); }
  }

  function WithSide(form: Form, t: Side): (other: Form)
    requires Runtime(form)
    ensures Runtime(other) && Ending(other) == Ending(form) && other.t == t
  {
    match form
    case Plain(_) => Plain(t)
    case Tiered(_, tier) => Tiered(t, tier)
    case CrossRegion(_) => CrossRegion(t)
  }

  lemma RuntimeParse(body: string, form: Form, model: string)
    requires Runtime(form) && SuffixMatch(body, Suffix(form)) == Some(model)
    requires MantleMatch(body, Input).None? && MantleMatch(body, Output).None?
    ensures ParseTokens(body) == Some(Meaning(model, form))
  {
    OwnSide(body, form, model);
    if !form.CrossRegion? { NoOtherSide(body, form, CrossRegion(Input)); }
    if form != Tiered(form.t, Priority) { NoOtherSide(body, form, Tiered(Input, Priority)); }
    if form != Tiered(form.t, Flex) { NoOtherSide(body, form, Tiered(Input, Flex)); }
    if !form.Plain? { NoOtherSide(body, form, Plain(Input)); }
  }

  lemma MantleParse(body: string, t: Side, model: string, word: string)
    requires MantleMatch(body, t) == Some((model, word))
    ensures ParseTokens(body) == Some(Meaning(model, Mantle(t, word)))
  {
    var other: Side := if t == Input then Output else Input;
    if MantleMatch(body, other).Some? {
      var found := MantleMatch(body, other).value;
      MantleMatchIsSplit(body, t, model, word);
      MantleMatchIsSplit(body, other, found.0, found.1);
      OneMantleSide(model, t, word, found.0, other, found.1);
    }
  }

  lemma OneMantleSide(model: string, t: Side, word: string, model': string, t': Side, word': string)
    requires Word(word) && Word(word') && model + MantlePart(t) + word == model' + MantlePart(t') + word'
    ensures t == t'
  {
    MantlePartEnds(t);
    MantlePartEnds(t');
    LastWordIsUnique(model + MantlePart(t), word, model' + MantlePart(t'), word');
    MantleSplits(model, t);
    MantleSplits(model', t');
    SameSide(model + MANTLE, t, model' + MANTLE, t');
  }

  lemma MantleSplits(model: string, t: Side)
    ensures model + MantlePart(t) == (model + MANTLE) + (TokenPart(t) + "-")
  {
    MantlePartIsFront(t);
  }

  predicate Cached(form: Form) {
    form.CacheReads? || form.CacheWrites?
  }

  lemma TieredAsMantle(model: string, form: Form)
    requires ValidForm(form) && ReadAsMantle(model, form) && OneLine(model)
    ensures ParseTokens(model + Suffix(form))
              == Some(Parsed(model[..|model| - |MANTLE|], form.t, BedrockMantle, form.tier, false))
  {
    TieredSplitsAsMantle(model, form);
    FrontAndWord(form);
    MantleReadsBack(model[..|model| - |MANTLE|], form.t, WordOf(form));
  }

  lemma TieredSplitsAsMantle(model: string, form: Form)
    requires ValidForm(form) && ReadAsMantle(model, form)
    ensures model + Suffix(form) == model[..|model| - |MANTLE|] + (MantlePart(form.t) + WordOf(form))
  {
    var m := model[..|model| - |MANTLE|];
    SuffixIsFrontAndWord(form);
    DropsMantle(model, m);
    MantlePartIsFront(form.t);
    Resplits(m, MANTLE, FrontOf(form), WordOf(form));
  }

  lemma DropsMantle(model: string, m: string)
    requires EndsWith(model, MANTLE) && m == model[..|model| - |MANTLE|]
    ensures model == m + MANTLE
  {
  }

  lemma MantlePartIsFront(t: Side)
    ensures MantlePart(t) == MANTLE + (TokenPart(t) + "-")
  {
  }

  lemma Resplits(m: string, mantle: string, front: string, word: string)
    ensures (m + mantle) + (front + word) == m + ((mantle + front) + word)
  {
  }

  lemma MantleReadsBack(model: string, t: Side, word: string)
    requires Word(word) && model != "" && OneLine(model)
    ensures ParseTokens(model + (MantlePart(t) + word)) == Some(Meaning(model, Mantle(t, word)))
  {
    var body := model + (MantlePart(t) + word);
    assert body == model + MantlePart(t) + word;
    MantleMatchIsSplit(body, t, model, word);
    MantleParse(body, t, model, word);
  }

  lemma RuntimeReadsBack(model: string, form: Form)
    requires Runtime(form) && model != "" && OneLine(model) && !ReadAsMantle(model, form)
    ensures ParseTokens(model + Suffix(form)) == Some(Meaning(model, form))
  {
    var body := model + Suffix(form);
    SuffixMatchIsSplit(body, Suffix(form), model);
    NotMantle(model, form, Input);
    NotMantle(model, form, Output);
    RuntimeParse(body, form, model);
  }

  /**
   Without cache markers, a form is read back exactly when its model is one non-empty line and it is not taken
   for a metrics form.
   */
  lemma TokensReadBack(model: string, form: Form)
    requires ValidForm(form) && !Cached(form)
    ensures ParseTokens(model + Suffix(form)) == Some(Meaning(model, form)) <==>
              model != "" && OneLine(model) && !ReadAsMantle(model, form)
  {
    if model == "" || !OneLine(model) {
      if ParseTokens(model + Suffix(form)).Some? { TokensKeepOneLine(model + Suffix(form)); }
    } else if form.Mantle? {
      MantleReadsBack(model, form.t, form.word);
    } else if ReadAsMantle(model, form) {
      TieredAsMantle(model, form);
    } else {
      RuntimeReadsBack(model, form);
    }
  }

  lemma NotMantle(model: string, form: Form, t: Side)
    requires Runtime(form) && !ReadAsMantle(model, form)
    ensures MantleMatch(model + Suffix(form), t).None?
  {
    var body := model + Suffix(form);
    if MantleMatch(body, t).Some? {
      var found := MantleMatch(body, t).value;
      MantleMatchIsSplit(body, t, found.0, found.1);
      MantleMeetsOnlyTiered(model, form, t, found.0, found.1);
    }
  }

  /** Every model found behind the cache patterns is a non-empty line. */
  lemma TokensKeepOneLine(body: string)
    requires ParseTokens(body).Some?
    ensures ParseTokens(body).value.model != "" && OneLine(ParseTokens(body).value.model)
  {
    MantleKeepsOneLine(body, Input);
    MantleKeepsOneLine(body, Output);
    SideKeepsOneLine(body, CROSS_REGION);
    SideKeepsOneLine(body, TierPart(Priority));
    SideKeepsOneLine(body, TierPart(Flex));
    SideKeepsOneLine(body, "");
  }

  lemma MantleKeepsOneLine(body: string, t: Side)
    ensures MantleMatch(body, t).Some? ==> MantleMatch(body, t).value.0 != "" && OneLine(MantleMatch(body, t).value.0)
  {
  }

  lemma SideKeepsOneLine(body: string, ending: string)
    ensures SideMatch(body, ending).Some? ==>
              SideMatch(body, ending).value.0 != "" && OneLine(SideMatch(body, ending).value.0)
  {
  }

  // ---------- where the cache markers can occur ----------

  /** The last `|marker| - d` characters of the marker open the suffix. */
  predicate Straddles(suffix: string, marker: string, d: int) {
    0 < d < |marker| && |marker| - d <= |suffix| && marker[d..] == suffix[..|marker| - d]
  }

  lemma AtConcat(model: string, suffix: string, marker: string, i: int)
    requires At(model + suffix, marker, i)
    ensures At(model, marker, i) || At(suffix, marker, i - |model|) || Straddles(suffix, marker, |model| - i)
  {
    var s, d := model + suffix, |model| - i;
    if i + |marker| <= |model| {
      assert s[i..i + |marker|] == model[i..i + |marker|];
    } else if d <= 0 {
      assert s[i..i + |marker|] == suffix[-d..-d + |marker|];
    } else {
      assert s[i..i + |marker|][d..] == suffix[..|marker| - d];
    }
  }

  lemma AtEither(model: string, suffix: string, marker: string, i: int)
    ensures At(model, marker, i) ==> At(model + suffix, marker, i)
    ensures At(suffix, marker, i) ==> At(model + suffix, marker, |model| + i)
  {
    var s := model + suffix;
    if At(model, marker, i) {
      assert s[i..i + |marker|] == model[i..i + |marker|];
    }
    if At(suffix, marker, i) {
      assert s[|model| + i..|model| + i + |marker|] == suffix[i..i + |marker|];
    }
  }

  lemma IndexInConcat(model: string, suffix: string, marker: string)
    requires marker != "" && forall d :: !Straddles(suffix, marker, d)
    ensures IndexOf(model + suffix, marker) ==
            if IndexOf(model, marker) != -1 then IndexOf(model, marker)
            else if IndexOf(suffix, marker) != -1 then |model| + IndexOf(suffix, marker)
            else -1
  {
    FirstFrom(model, marker, 0);
    FirstFrom(suffix, marker, 0);
    forall i | At(model + suffix, marker, i) ensures At(model, marker, i) || At(suffix, marker, i - |model|) {
      AtConcat(model, suffix, marker, i);
    }
    var a, b := IndexOf(model, marker), IndexOf(suffix, marker);
    AtEither(model, suffix, marker, a);
    AtEither(model, suffix, marker, b);
    if a != -1 {
      IndexIs(model + suffix, marker, a);
    } else if b != -1 {
      IndexIs(model + suffix, marker, |model| + b);
    } else {
      IndexIsNone(model + suffix, marker);
    }
  }

  predicate CacheMarker(m: string) {
    m == CACHE_READ || m == CACHE_WRITE
  }

  lemma MarkerDashes(m: string, d: int)
    requires CacheMarker(m) && 0 < d < |m| && m[d] == '-'
    ensures d + 5 < |m|
    ensures m[d + 1] != 'o' && m[d + 1] != 'm'
    ensures m[d + 1] == 'i' ==> d + 12 < |m| && m[d + 12] == '-'
    ensures m[d + 1] == 'c' ==> m[d + 2] == 'o'
  {
  }

  lemma SuffixOpens(form: Form)
    requires ValidForm(form)
    ensures var s := Suffix(form);
      && |s| > 12 && s[0] == '-'
      && (s[1] == 'o' || s[1] == 'm' || (s[1] == 'i' && s[12] == 's') || (s[1] == 'c' && s[2] == 'a'))
  {
  }

  lemma NoStraddle(form: Form, m: string, d: int)
    requires ValidForm(form) && CacheMarker(m)
    ensures !Straddles(Suffix(form), m, d)
  {
    if Straddles(Suffix(form), m, d) {
      SuffixOpens(form);
      StraddleOpens(Suffix(form), m, d);
    }
  }

  /** How a suffix opens that a marker reaches into. */
  lemma StraddleOpens(s: string, m: string, d: int)
    requires CacheMarker(m) && Straddles(s, m, d) && |s| > 12 && s[0] == '-'
    ensures s[1] != 'o' && s[1] != 'm' && (s[1] == 'i' ==> s[12] == '-') && (s[1] == 'c' ==> s[2] == 'o')
  {
    var n := |m| - d;
    assert forall k :: 0 <= k < n ==> s[k] == m[d..][k] == m[d + k];
    assert m[d] == s[0];
    MarkerDashes(m, d);
    assert s[1] == m[d + 1] && s[2] == m[d + 2];
  }

  /** A marker opens with `-ca` and goes on after another hyphen. */
  lemma MarkerOpens(s: string, m: string, j: int)
    requires CacheMarker(m) && At(s, m, j)
    ensures 29 <= |m| && j + |m| <= |s| && s[j] == '-' && s[j + 1] == 'c' && s[j + 2] == 'a' && s[j + 6] == '-' &&
              s[j + 7] == m[7]
  {
    assert forall k :: 0 <= k < |m| ==> s[j + k] == s[j..j + |m|][k] == m[k];
    assert m[0] == '-' && m[1] == 'c' && m[2] == 'a' && m[6] == '-';
  }

  lemma NoMarkerInTokens(form: Form, m: string, j: int)
    requires ValidForm(form) && !Cached(form) && CacheMarker(m)
    ensures !At(Suffix(form), m, j)
  {
    if At(Suffix(form), m, j) {
      MarkerOpens(Suffix(form), m, j);
      if form.Mantle? {
        NoMarkerInMantle(form.t, form.word, m, j);
      }
    }
  }

  lemma NoMarkerInMantle(t: Side, word: string, m: string, j: int)
    requires Word(word) && CacheMarker(m)
    ensures !At(MantlePart(t) + word, m, j)
  {
    if At(MantlePart(t) + word, m, j) {
      MarkerOpens(MantlePart(t) + word, m, j);
      MantleDashes(t, word, j);
    }
  }

  /** Two hyphens of a metrics suffix lie before its word, where no part begins with `c`. */
  lemma MantleDashes(t: Side, word: string, j: int)
    requires Word(word) && var s := MantlePart(t) + word; 0 <= j && j + 6 < |s| && s[j] == '-' && s[j + 6] == '-'
    ensures (MantlePart(t) + word)[j + 1] != 'c'
  {
    var part, s := MantlePart(t), MantlePart(t) + word;
    assert forall k :: |part| <= k < |s| ==> s[k] == word[k - |part|];
    assert j + 6 < |part|;
    assert s[j] == part[j] && s[j + 1] == part[j + 1];
  }

  lemma MarkerInSuffix(form: Form, m: string)
    requires ValidForm(form) && CacheMarker(m)
    ensures IndexOf(Suffix(form), m) == if Cached(form) && Suffix(form) == m then 0 else -1
  {
    var s := Suffix(form);
    if !Cached(form) {
      forall j ensures !At(s, m, j) { NoMarkerInTokens(form, m, j); }
      IndexIsNone(s, m);
    } else if s == m {
      assert s[0..0 + |m|] == m;
      IndexIs(s, m, 0);
    } else {
      forall j ensures !At(s, m, j) { NotTheOtherMarker(s, m, j); }
      IndexIsNone(s, m);
    }
  }

  lemma NotTheOtherMarker(s: string, m: string, j: int)
    requires CacheMarker(s) && CacheMarker(m) && s != m
    ensures !At(s, m, j)
  {
    if At(s, m, j) {
      MarkerOpens(s, m, j);
    }
  }

  // ---------- the round trip ----------

  /** Where the parser looks for a marker: it counts only behind a non-empty model. */
  predicate Hidden(model: string, marker: string, own: bool) {
    if own then IndexOf(model, marker) == -1 && model != "" else IndexOf(model, marker) <= 0
  }

  /** The model is on one line. */
  lemma OnOneLine(model: string)
    ensures OneLine(model) <==>
            '\n' !in model && '\r' !in model && '\U{2028}' !in model && '\U{2029}' !in model
  {
  }

  /** The models a form can carry. */
  predicate Readable(model: string, form: Form) {
    match form
    case CacheReads => Hidden(model, CACHE_READ, true)
    case CacheWrites => Hidden(model, CACHE_READ, false) && Hidden(model, CACHE_WRITE, true)
    case _ =>
      && Hidden(model, CACHE_READ, false) && Hidden(model, CACHE_WRITE, false)
      && model != "" && !ReadAsMantle(model, form)
      && '\n' !in model && '\r' !in model && '\U{2028}' !in model && '\U{2029}' !in model
  }

  lemma IndexInBody(model: string, form: Form, m: string)
    requires ValidForm(form) && CacheMarker(m)
    ensures IndexOf(model + Suffix(form), m) ==
            if IndexOf(model, m) != -1 then IndexOf(model, m) else if Suffix(form) == m then |model| else -1
  {
    forall d ensures !Straddles(Suffix(form), m, d) { NoStraddle(form, m, d); }
    IndexInConcat(model, Suffix(form), m);
    MarkerInSuffix(form, m);
    if Suffix(form) == m { SuffixIsMarker(form, m); }
  }

  lemma SuffixIsMarker(form: Form, m: string)
    requires ValidForm(form) && CacheMarker(m) && Suffix(form) == m
    ensures Cached(form)
  {
    SuffixOpens(form);
    if !Cached(form) {
      assert At(m, m, 0);
      NoMarkerInTokens(form, m, 0);
    }
  }

  lemma RenderStrips(region: string, model: string, form: Form)
    requires RegionCode(region) && ValidForm(form)
    ensures StripRegion(Render(region, model, form)) == model + Suffix(form) && model + Suffix(form) != ""
  {
    SuffixOpens(form);
    RenderAssociates(region, model, Suffix(form));
    StripsTheRegion(region, model + Suffix(form));
  }

  lemma RenderAssociates(region: string, model: string, suffix: string)
    ensures region + "-" + model + suffix == region + "-" + (model + suffix)
  {
  }

  lemma TokensHaveSides(body: string)
    requires ParseTokens(body).Some?
    ensures ParseTokens(body).value.tokenType.Input? || ParseTokens(body).value.tokenType.Output?
  {
  }

  /** What the patterns do with a rendered body, given the positions of the markers in its model. */
  lemma ChoiceOfForm(body: string, model: string, form: Form, r: int, w: int, read: int, write: int,
      tokens: Option<Parsed>)
    requires model <= body && -1 <= r && -1 <= w && read <= |body| && write <= |body|
    requires r < |model| && w < |model|
    requires read == if r != -1 then r else if form.CacheReads? then |model| else -1
    requires write == if w != -1 then w else if form.CacheWrites? then |model| else -1
    requires tokens.Some? ==> tokens.value.tokenType.Input? || tokens.value.tokenType.Output?
    ensures form.CacheReads? ==> (ParseBody(body, read, write, tokens) == Some(Meaning(model, form)) <==>
              r == -1 && model != "")
    ensures form.CacheWrites? ==> (ParseBody(body, read, write, tokens) == Some(Meaning(model, form)) <==>
              r <= 0 && w == -1 && model != "")
    ensures !Cached(form) ==> (ParseBody(body, read, write, tokens) == Some(Meaning(model, form)) <==>
              r <= 0 && w <= 0 && tokens == Some(Meaning(model, form)))
  {
    assert body[..|model|] == model;
  }

  lemma ParseIsChoice(region: string, model: string, form: Form)
    requires RegionCode(region) && ValidForm(form)
    ensures var parsed := ParseUsageType(Render(region, model, form));
      && (form.CacheReads? ==> (parsed == Some(Meaning(model, form)) <==> Hidden(model, CACHE_READ, true)))
      && (form.CacheWrites? ==> (parsed == Some(Meaning(model, form)) <==>
          Hidden(model, CACHE_READ, false) && Hidden(model, CACHE_WRITE, true)))
      && (!Cached(form) ==> (parsed == Some(Meaning(model, form)) <==>
            Hidden(model, CACHE_READ, false) && Hidden(model, CACHE_WRITE, false) &&
                ParseTokens(model + Suffix(form)) == Some(Meaning(model, form))))
  {
    var body := model + Suffix(form);
    RenderStrips(region, model, form);
    IndexInBody(model, form, CACHE_READ);
    IndexInBody(model, form, CACHE_WRITE);
    MarkersAreSuffixes(form);
    var tokens := ParseTokens(body);
    if tokens.Some? { TokensHaveSides(body); }
    MarkersAreLong();
    ChoiceOfForm(body, model, form, IndexOf(model, CACHE_READ), IndexOf(model, CACHE_WRITE), IndexOf(body, CACHE_READ),
        IndexOf(body, CACHE_WRITE), tokens);
  }

  /**
   For every region, model and form: the parse gives back what the usage type was built from exactly when the
   form can carry the model.
   */
  lemma ReadsBackIffReadable(region: string, model: string, form: Form)
    requires RegionCode(region) && ValidForm(form)
    ensures ParseUsageType(Render(region, model, form)) == Some(Meaning(model, form)) <==> Readable(model, form)
  {
    ParseIsChoice(region, model, form);
    OnOneLine(model);
    if !Cached(form) {
      TokensReadBack(model, form);
    }
  }

  lemma MarkersAreLong()
    ensures |CACHE_READ| > 0 && |CACHE_WRITE| > 0
  {
  }

  lemma MarkersAreSuffixes(form: Form)
    requires ValidForm(form)
    ensures Suffix(form) == CACHE_READ <==> form.CacheReads?
    ensures Suffix(form) == CACHE_WRITE <==> form.CacheWrites?
  {
    CacheMarkersDiffer();
    if Suffix(form) == CACHE_READ { SuffixIsMarker(form, CACHE_READ); }
    if Suffix(form) == CACHE_WRITE { SuffixIsMarker(form, CACHE_WRITE); }
  }

  lemma CacheMarkersDiffer()
    ensures CACHE_READ != CACHE_WRITE
  {
    assert CACHE_READ[7] != CACHE_WRITE[7];
  }

  /**
   The exception among the tiered forms: a model name ending in `-mantle` loses that ending and changes the
   endpoint.
   */
  lemma MantleNamesAreMisread(region: string, model: string, t: Side, tier: Tier)
    requires RegionCode(region) && tier != Standard
    requires model != "" && OneLine(model) && IndexOf(model + MANTLE, CACHE_READ) <= 0 &&
               IndexOf(model + MANTLE, CACHE_WRITE) <= 0
    ensures ParseUsageType(Render(region, model + MANTLE, Tiered(t, tier)))
              == Some(Parsed(model, t, BedrockMantle, tier, false))
  {
    var form, name := Tiered(t, tier), model + MANTLE;
    RenderStrips(region, name, form);
    IndexInBody(name, form, CACHE_READ);
    IndexInBody(name, form, CACHE_WRITE);
    MarkersAreSuffixes(form);
    DropEnding(model);
    TieredAsMantle(name, form);
  }

  lemma DropEnding(model: string)
    ensures EndsWith(model + MANTLE, MANTLE) && (model + MANTLE)[..|model + MANTLE| - |MANTLE|] == model
    ensures OneLine(model) ==> OneLine(model + MANTLE)
  {
  }

  // ---------- nothing is invented ----------

  /** The stripped usage type is the model and the suffix of the form; after a cache marker, anything may follow. */
  predicate Explains(body: string, model: string, form: Form) {
    if Cached(form) then model != "" && IndexOf(body, Suffix(form)) == |model| && model + Suffix(form) <= body
    else model != "" && OneLine(model) && body == model + Suffix(form)
  }

  lemma MantleIsExplained(body: string, t: Side)
    requires MantleMatch(body, t).Some?
    ensures var (model, word) := MantleMatch(body, t).value;
      Word(word) && ParseTokens(body) == Some(Meaning(model, Mantle(t, word))) && Explains(body, model, Mantle(t, word))
  {
    var (model, word) := MantleMatch(body, t).value;
    MantleSplitIsExplained(body, t, model, word);
    MantleParse(body, t, model, word);
  }

  lemma MantleSplitIsExplained(body: string, t: Side, model: string, word: string)
    requires MantleMatch(body, t) == Some((model, word))
    ensures Word(word) && Explains(body, model, Mantle(t, word))
  {
    MantleMatchIsSplit(body, t, model, word);
    SplitIsExplained(body, t, model, word);
  }

  lemma SplitIsExplained(body: string, t: Side, model: string, word: string)
    requires body == model + MantlePart(t) + word && model != "" && OneLine(model)
    ensures Explains(body, model, Mantle(t, word))
  {
    Associates(model, MantlePart(t), word);
  }

  lemma Associates(a: string, b: string, c: string)
    ensures a + b + c == a + (b + c)
  {
  }

  lemma SideIsExplained(body: string, form: Form)
    requires Runtime(form) && SideMatch(body, Ending(form)).Some? && SideMatch(body, Ending(form)).value.1 == form.t
    ensures Explains(body, SideMatch(body, Ending(form)).value.0, form)
  {
    SuffixMatchIsSplit(body, TokenPart(form.t) + Ending(form), SideMatch(body, Ending(form)).value.0);
  }

  lemma TokensAreExplained(body: string) returns (form: Form)
    requires ParseTokens(body).Some?
    ensures ValidForm(form) && ParseTokens(body) == Some(Meaning(ParseTokens(body).value.model, form))
    ensures Explains(body, ParseTokens(body).value.model, form)
  {
    if MantleMatch(body, Input).Some? {
      MantleIsExplained(body, Input);
      form := Mantle(Input, MantleMatch(body, Input).value.1);
    } else if MantleMatch(body, Output).Some? {
      MantleIsExplained(body, Output);
      form := Mantle(Output, MantleMatch(body, Output).value.1);
    } else {
      form := RuntimeIsExplained(body);
    }
  }

  lemma RuntimeIsExplained(body: string) returns (form: Form)
    requires ParseTokens(body).Some? && MantleMatch(body, Input).None? && MantleMatch(body, Output).None?
    ensures Runtime(form) && ParseTokens(body) == Some(Meaning(ParseTokens(body).value.model, form))
    ensures Explains(body, ParseTokens(body).value.model, form)
  {
    if SideMatch(body, CROSS_REGION).Some? {
      form := CrossRegion(SideMatch(body, CROSS_REGION).value.1);
    } else if TieredMatch(body).Some? {
      form := Tiered(TieredMatch(body).value.1, TieredMatch(body).value.2);
    } else {
      form := Plain(SideMatch(body, "").value.1);
    }
    SideIsExplained(body, form);
  }

  /**
   Whatever is parsed can be rebuilt from the answer: the model, the token type, the endpoint, the tier and the
   routing all stand in the input.
   */
  lemma ParsedIsExplained(usageType: string) returns (form: Form)
    requires ParseUsageType(usageType).Some?
    ensures var p := ParseUsageType(usageType).value;
      ValidForm(form) && p == Meaning(p.model, form) && Explains(StripRegion(usageType), p.model, form)
  {
    form := BodyIsExplained(StripRegion(usageType));
  }

  lemma BodyIsExplained(body: string) returns (form: Form)
    requires body != "" && ParseBody(body, IndexOf(body, CACHE_READ), IndexOf(body, CACHE_WRITE),
               ParseTokens(body)).Some?
    ensures var p := ParseBody(body, IndexOf(body, CACHE_READ), IndexOf(body, CACHE_WRITE), ParseTokens(body)).value;
      ValidForm(form) && p == Meaning(p.model, form) && Explains(body, p.model, form)
  {
    if IndexOf(body, CACHE_READ) > 0 {
      form := CacheReads;
      MarkerFollows(body, form);
    } else if IndexOf(body, CACHE_WRITE) > 0 {
      form := CacheWrites;
      MarkerFollows(body, form);
    } else {
      form := TokensAreExplained(body);
    }
  }

  lemma MarkerFollows(body: string, form: Form)
    requires Cached(form) && IndexOf(body, Suffix(form)) > 0
    ensures Explains(body, body[..IndexOf(body, Suffix(form))], form)
  {
    FirstFrom(body, Suffix(form), 0);
    AtExtends(body, Suffix(form), IndexOf(body, Suffix(form)));
  }

  lemma AtExtends(body: string, m: string, i: nat)
    requires At(body, m, i)
    ensures body[..i] + m <= body
  {
    assert body[..i] + body[i..i + |m|] == body[..i + |m|];
  }
}
