/**
 Skill bundles: the writer that serialises a draft into front matter and a manifest, and the
 loader that reads them back. YAML is a pair of functions given from outside; what is modelled is
 what the two sides put into the text and the dictionaries around it.
 */
module SkillBundle {
  import opened Common
  import opened PyStrings

  /** The dictionary keys both sides spell the same way; every other key is itself. */
  datatype Key =
    | NameKey | DescriptionKey | VersionKey | TagsKey | HomepageKey | MetadataKey | OpenclawKey
    | UserInvocable | DisableModelInvocation | CommandDispatch | CommandTool | CommandArgMode // with dashes
    | UserInvocableSnake | DisableModelInvocationSnake | CommandDispatchSnake | CommandToolSnake | CommandArgModeSnake
    | Always | Emoji | Os | PrimaryEnv | SkillKey | RequiresKey | Install
    | Bins | AnyBins | AnyBinsSnake | Env | Config
    | BundleVersion | Compatibility | DesignedFor | Surfaces | TestedOn
    | Platform | Surface | ModelKey | StatusKey | Date
    | OtherKey(text: string)

  type Dict = map<Key, Value>

  /** What YAML can hold; Other stands for numbers and dates. */
  datatype Value = Null | Bool(b: bool) | Str(s: string) | List(items: seq<Value>) | Table(fields: map<Key, Value>)
                 | Other(shown: string, isZero: bool)

  /** The two functions given from outside: YAML loading (None where it raises), and how str()
      shows a list or a dictionary. */
  datatype Env = EnvOf(load: string -> Option<Value>, show: Value -> string)

  function Truthy(v: Value): bool {
    match v
    case Null => false
    case Bool(b) => b
    case Str(s) => s != ""
    case List(items) => items != []
    case Table(fields) => fields != map[]
    case Other(_, isZero) => !isZero
  }

  function StrOf(v: Value, env: Env): string {
    match v
    case Null => "None"
    case Bool(b) => if b then "True" else "False"
    case Str(s) => s
    case Other(shown, _) => shown
    case _ => env.show(v)
  }

  /** dict.get: Null when the key is absent. */
  function Get(d: Dict, key: Key): (v: Value) {
    if key in d then d[key] else Null
  }

  function AsTable(v: Value): (d: Dict) {
    if v.Table? then v.fields else map[]
  }

  function LowerChar(c: char): char {
    if 'A' <= c <= 'Z' then c - 'A' + 'a' else c
  }

  function Lower(s: string): (r: string) {
    seq(|s|, i requires 0 <= i < |s| => LowerChar(s[i]))
  }

  /** Capital letters become small ones and nothing else changes. */
  lemma LowerFacts(s: string)
    ensures |Lower(s)| == |s| && Lower(Lower(s)) == Lower(s)
    ensures forall i :: 0 <= i < |s| ==>
      Lower(s)[i] as int == s[i] as int + if 'A' <= s[i] <= 'Z' then 32 else 0
  {
  }

  function Strs(list: seq<string>): (r: seq<Value>) {
    seq(|list|, i requires 0 <= i < |list| => Str(list[i]))
  }

  // ------------------------------------------------------------- the front matter fence

  const Fence: string := "\n---"

  predicate FenceAt(s: string, k: int) {
    0 <= k && k + 4 <= |s| && s[k..k + 4] == Fence
  }

  predicate HasFence(s: string) {
    exists k :: 0 <= k <= |s| && FenceAt(s, k)
  }

  /** The first place of the fence in s from i on, or |s|. */
  function FindFence(s: string, i: nat): (p: nat)
    requires i <= |s|
    ensures i <= p <= |s| && (p < |s| ==> FenceAt(s, p))
    ensures forall k :: i <= k < p ==> !FenceAt(s, k)
    decreases |s| - i
  {
    if i == |s| then i else if FenceAt(s, i) then i else FindFence(s, i + 1)
  }

  function SkillText(rendered: string, instructions: string): (text: string) {
    "---\n" + rendered + "\n---\n\n" + (Strip(instructions) + "\n")
  }

  /** The text between the opening line and the next fence. */
  function FrontmatterText(text: string): (r: Option<string>) {
    if |text| < 4 || text[..4] != "---\n" then None
    else
      var rest := text[4..];
      var p := FindFence(rest, 0);
      if p == |rest| then None else Some(rest[..p])
  }

  lemma FenceAtSeam(rendered: string, tail: string, k: nat)
    requires k < |rendered|
    ensures FenceAt(rendered + Fence + "\n" + tail, k) <==> FenceAt(rendered, k)
  {
    var text := rendered + Fence + "\n" + tail;
    if k + 4 <= |rendered| {
      assert text[k..k + 4] == rendered[k..k + 4];
    } else {
      var j := |rendered| - k;
      assert text[k..k + 4][j] == text[|rendered|] == '\n';
      assert Fence[j] == '-';
    }
  }

  /** Reading back the front matter of a written skill gives exactly what was written, if and only
      if that text has no line starting with three dashes. */
  lemma FrontmatterRoundTrip(rendered: string, instructions: string)
    ensures FrontmatterText(SkillText(rendered, instructions)) == Some(rendered) <==> !HasFence(rendered)
  {
    hide Strip;
    var tail := "\n" + (Strip(instructions) + "\n");
    var text := SkillText(rendered, instructions);
    var rest := rendered + Fence + "\n" + tail;
    assert text == "---\n" + rest;
    assert text[4..] == rest && text[..4] == "---\n";
    var n := |rendered|;
    assert rest[n..n + 4] == Fence;
    var p := FindFence(rest, 0);
    assert FenceAt(rest, n) && p <= n;
    if p < n {
      FenceAtSeam(rendered, tail, p);
      assert |rest[..p]| != |rendered|;
    } else {
      assert rest[..p] == rendered;
      forall k | 0 <= k <= n ensures !FenceAt(rendered, k) {
        if k < n {
          FenceAtSeam(rendered, tail, k);
        }
      }
    }
  }

  /** The text after the fence that closes the front matter. */
  function BodyText(text: string): (r: Option<string>) {
    if FrontmatterText(text).None? then None else Some(text[4 + |FrontmatterText(text).value| + |Fence|..])
  }

  lemma AroundText(t: string)
    requires Trimmed(t)
    ensures Strip("\n\n" + t + "\n") == t
  {
    hide Strip;
    assert Blank("\n\n") && Blank("\n");
    StripAround("\n\n", t, "\n");
  }

  /** What follows the front matter of a written skill is its instructions, but for white space around them. */
  lemma InstructionsSurvive(rendered: string, instructions: string)
    requires !HasFence(rendered)
    ensures var body := BodyText(SkillText(rendered, instructions));
      body.Some? && Strip(body.value) == Strip(instructions)
  {
    hide Strip, HasFence, FrontmatterText;
    FrontmatterRoundTrip(rendered, instructions);
    StripFacts(instructions);
    AroundText(Strip(instructions));
    var text := SkillText(rendered, instructions);
    assert text == ("---\n" + rendered + Fence) + ("\n\n" + Strip(instructions) + "\n");
    assert BodyText(text).value == "\n\n" + Strip(instructions) + "\n";
  }

  /** The front matter as the loader sees it; None where YAML raises. */
  function Frontmatter(text: string, env: Env): (r: Option<Dict>) {
    match FrontmatterText(text)
    case None => Some(map[])
    case Some(raw) => if env.load(raw).None? then None else Some(AsTable(env.load(raw).value))
  }

  // ------------------------------------------------------------- lists of strings

  function NonBlank(text: string): (r: seq<string>) {
    if Strip(text) == "" then [] else [Strip(text)]
  }

  /** The first k strings, stripped, the blank ones dropped. */
  function CleanedUpTo(list: seq<string>, k: nat): (r: seq<string>)
    requires k <= |list|
  {
    if k == 0 then [] else CleanedUpTo(list, k - 1) + NonBlank(list[k - 1])
  }

  function Cleaned(list: seq<string>): (r: seq<string>) {
    CleanedUpTo(list, |list|)
  }

  function CoerceItems(items: seq<Value>, k: nat, env: Env): (r: seq<string>)
    requires k <= |items|
  {
    if k == 0 then [] else CoerceItems(items, k - 1, env) + NonBlank(StrOf(items[k - 1], env))
  }

  function CoerceStrList(v: Value, env: Env): (r: seq<string>) {
    match v
    case Str(s) => NonBlank(s)
    case List(items) => CoerceItems(items, |items|, env)
    case _ => []
  }

  method CoerceStrings(v: Value, env: Env) returns (out: seq<string>)
    ensures out == CoerceStrList(v, env)
  {
    hide Strip;
    out := [];
    match v {
      case Str(s) =>
        if Strip(s) != "" {
          out := [Strip(s)];
        }
      case List(items) =>
        for i := 0 to |items|
          invariant out == CoerceItems(items, i, env)
        {
          var text := Strip(StrOf(items[i], env));
          if text != "" {
            out := out + [text];
          }
        }
      case _ =>
    }
  }

  lemma {:induction false} CoerceWrittenUpTo(list: seq<string>, k: nat, env: Env)
    requires k <= |list|
    ensures CoerceItems(Strs(list), k, env) == CleanedUpTo(list, k)
  {
    hide NonBlank;
    if k > 0 {
      CoerceWrittenUpTo(list, k - 1, env);
    }
  }

  /** A written list of strings reads back stripped and without its blank entries. */
  lemma CoerceWritten(list: seq<string>, env: Env)
    ensures CoerceStrList(List(Strs(list)), env) == Cleaned(list)
  {
    hide NonBlank;
    CoerceWrittenUpTo(list, |list|, env);
  }

  lemma {:induction false} CleanedKeeps(list: seq<string>, k: nat)
    requires k <= |list| && forall i :: 0 <= i < |list| ==> NonBlank(list[i]) == [list[i]]
    ensures CleanedUpTo(list, k) == list[..k]
  {
    hide NonBlank;
    if k > 0 {
      CleanedKeeps(list, k - 1);
      assert list[..k] == list[..k - 1] + [list[k - 1]];
    }
  }

  // ------------------------------------------------------------- drafts and specs

  datatype Requires = Requires(bins: seq<string>, anyBins: seq<string>, env: seq<string>, config: seq<string>)

  /** The OpenClaw fields, as authored and as read back. */
  datatype OpenClaw = OpenClaw(
    homepage: Option<string>, userInvocable: bool, disableModelInvocation: bool,
    commandDispatch: Option<string>, commandTool: Option<string>, commandArgMode: Option<string>,
    always: bool, emoji: Option<string>, os: seq<string>, primaryEnv: Option<string>, skillKey: Option<string>,
    requires_: Requires, install: seq<Dict>)

  datatype Draft = Draft(
    slug: string, name: string, description: string, version: string, instructions: string,
    surfaces: seq<string>, tags: seq<string>, openclaw: Option<OpenClaw>)

  function With(d: Dict, present: bool, key: Key, value: Value): Dict {
    if present then d[key := value] else d
  }

  predicate Given(text: Option<string>) {
    text.Some? && text.value != ""
  }

  function Text(text: Option<string>): Value {
    if text.Some? then Str(text.value) else Null
  }

  function RequiresPayload(r: Requires): Dict {
    var d := With(map[], r.bins != [], Bins, List(Strs(r.bins)));
    var d := With(d, r.anyBins != [], AnyBins, List(Strs(r.anyBins)));
    var d := With(d, r.env != [], Key.Env, List(Strs(r.env)));
    With(d, r.config != [], Config, List(Strs(r.config)))
  }

  function Tables(install: seq<Dict>): (r: seq<Value>) {
    seq(|install|, i requires 0 <= i < |install| => Table(install[i]))
  }

  function MetaPayload(o: OpenClaw): Dict {
    var d := With(map[], o.always, Always, Bool(true));
    var d := With(d, Given(o.emoji), Emoji, Text(o.emoji));
    var d := With(d, o.os != [], Os, List(Strs(o.os)));
    var d := With(d, Given(o.primaryEnv), PrimaryEnv, Text(o.primaryEnv));
    var d := With(d, Given(o.skillKey), SkillKey, Text(o.skillKey));
    var d := With(d, RequiresPayload(o.requires_) != map[], RequiresKey, Table(RequiresPayload(o.requires_)));
    With(d, o.install != [], Install, List(Tables(o.install)))
  }

  function BaseFields(draft: Draft): Dict {
    With(map[NameKey := Str(draft.name), DescriptionKey := Str(draft.description), VersionKey := Str(draft.version)],
         draft.tags != [], TagsKey, List(Strs(draft.tags)))
  }

  function FlagFields(d: Dict, o: OpenClaw): Dict {
    var d := With(d, Given(o.homepage), HomepageKey, Text(o.homepage));
    var d := With(d, !o.userInvocable, UserInvocable, Bool(false));
    With(d, o.disableModelInvocation, DisableModelInvocation, Bool(true))
  }

  function CommandFields(d: Dict, o: OpenClaw): Dict {
    var d := With(d, Given(o.commandDispatch), CommandDispatch, Text(o.commandDispatch));
    var d := With(d, Given(o.commandTool), CommandTool, Text(o.commandTool));
    With(d, Given(o.commandArgMode), CommandArgMode, Text(o.commandArgMode))
  }

  function FrontmatterOf(draft: Draft): Dict {
    if draft.openclaw.None? then BaseFields(draft)
    else
      var o := draft.openclaw.value;
      With(CommandFields(FlagFields(BaseFields(draft), o), o), MetaPayload(o) != map[], MetadataKey,
           Table(map[OpenclawKey := Table(MetaPayload(o))]))
  }

  method WriteRequires(r: Requires) returns (payload: Dict)
    ensures payload == RequiresPayload(r)
  {
    payload := map[];
    if r.bins != [] {
      payload := payload[Bins := List(Strs(r.bins))];
    }
    if r.anyBins != [] {
      payload := payload[AnyBins := List(Strs(r.anyBins))];
    }
    if r.env != [] {
      payload := payload[Key.Env := List(Strs(r.env))];
    }
    if r.config != [] {
      payload := payload[Config := List(Strs(r.config))];
    }
  }

  method WriteMeta(o: OpenClaw) returns (payload: Dict)
    ensures payload == MetaPayload(o)
  {
    hide Strs, Tables, RequiresPayload;
    payload := map[];
    if o.always {
      payload := payload[Always := Bool(true)];
    }
    if Given(o.emoji) {
      payload := payload[Emoji := Str(o.emoji.value)];
    }
    if o.os != [] {
      payload := payload[Os := List(Strs(o.os))];
    }
    if Given(o.primaryEnv) {
      payload := payload[PrimaryEnv := Str(o.primaryEnv.value)];
    }
    if Given(o.skillKey) {
      payload := payload[SkillKey := Str(o.skillKey.value)];
    }
    var needs := WriteRequires(o.requires_);
    if needs != map[] {
      payload := payload[RequiresKey := Table(needs)];
    }
    if o.install != [] {
      payload := payload[Install := List(Tables(o.install))];
    }
  }

  method WriteFlags(front: Dict, o: OpenClaw) returns (d: Dict)
    ensures d == FlagFields(front, o)
  {
    d := front;
    if Given(o.homepage) {
      d := d[HomepageKey := Str(o.homepage.value)];
    }
    if !o.userInvocable {
      d := d[UserInvocable := Bool(false)];
    }
    if o.disableModelInvocation {
      d := d[DisableModelInvocation := Bool(true)];
    }
  }

  method WriteCommands(front: Dict, o: OpenClaw) returns (d: Dict)
    ensures d == CommandFields(front, o)
  {
    d := front;
    if Given(o.commandDispatch) {
      d := d[CommandDispatch := Str(o.commandDispatch.value)];
    }
    if Given(o.commandTool) {
      d := d[CommandTool := Str(o.commandTool.value)];
    }
    if Given(o.commandArgMode) {
      d := d[CommandArgMode := Str(o.commandArgMode.value)];
    }
  }

  method WriteFrontmatter(draft: Draft) returns (front: Dict)
    ensures front == FrontmatterOf(draft)
  {
    hide MetaPayload, Strs, FlagFields, CommandFields;
    front := map[NameKey := Str(draft.name), DescriptionKey := Str(draft.description),
        VersionKey := Str(draft.version)];
    if draft.tags != [] {
      front := front[TagsKey := List(Strs(draft.tags))];
    }
    assert front == BaseFields(draft);
    if draft.openclaw.Some? {
      var o := draft.openclaw.value;
      front := WriteFlags(front, o);
      front := WriteCommands(front, o);
      var meta := WriteMeta(o);
      if meta != map[] {
        front := front[MetadataKey := Table(map[OpenclawKey := Table(meta)])];
      }
    }
  }

  // ------------------------------------------------------------- reading them back

  datatype Warning =
    | BadMetadata | UnknownOs(value: string) | UnknownDispatch | DispatchWithoutTool
    | NoCompatibility | NoSurfaces | NoSupportedSurface | NoPassingTest

  predicate IsOs(s: string) {
    s == "darwin" || s == "linux" || s == "win32"
  }

  predicate IsSupported(s: string) {
    s == "chat" || s == "cli" || s == "ide"
  }

  /** The first of the two spellings that is present. */
  function Pop(d: Dict, dashed: Key, snake: Key): Value {
    if dashed in d then d[dashed] else Get(d, snake)
  }

  function StrippedText(v: Value): Option<string> {
    if v.Str? then Some(Strip(v.s)) else None
  }

  /** The metadata field may be an inline document. */
  function MetadataOf(d: Dict, env: Env): (r: (Dict, seq<Warning>)) {
    match Get(d, MetadataKey)
    case Str(s) =>
      if env.load(s).None? then (map[], [BadMetadata])
      else (AsTable(env.load(s).value), [])
    case v => (AsTable(v), [])
  }

  function RequiresOf(meta: Dict, env: Env): Requires {
    var raw := AsTable(Get(meta, RequiresKey));
    Requires(CoerceStrList(Get(raw, Bins), env),
             CoerceStrList(if Truthy(Get(raw, AnyBins)) then Get(raw, AnyBins) else Get(raw, AnyBinsSnake), env),
             CoerceStrList(Get(raw, Key.Env), env),
             CoerceStrList(Get(raw, Config), env))
  }

  function OsWarnings(os: seq<string>): (r: seq<Warning>) {
    if os == [] then []
    else (if IsOs(os[0]) then [] else [UnknownOs(os[0])]) + OsWarnings(os[1..])
  }

  function TablesIn(items: seq<Value>, k: nat): (r: seq<Dict>)
    requires k <= |items|
  {
    if k == 0 then [] else TablesIn(items, k - 1) + if items[k - 1].Table? then [items[k - 1].fields] else []
  }

  function InstallOf(v: Value): seq<Dict> {
    if v.List? then TablesIn(v.items, |v.items|) else []
  }

  predicate HasSignal(d: Dict, meta: Dict) {
    || meta != map[]
    || Truthy(Pop(d, CommandDispatch, CommandDispatchSnake))
    || Truthy(Pop(d, CommandTool, CommandToolSnake))
    || Truthy(Pop(d, CommandArgMode, CommandArgModeSnake))
    || Truthy(Get(d, HomepageKey))
    || Pop(d, UserInvocable, UserInvocableSnake) == Bool(false)
    || Pop(d, DisableModelInvocation, DisableModelInvocationSnake) == Bool(true)
  }

  function CommandWarnings(d: Dict): (r: seq<Warning>) {
    var dispatch := Pop(d, CommandDispatch, CommandDispatchSnake);
    var tool := Pop(d, CommandTool, CommandToolSnake);
    (if Truthy(dispatch) && dispatch != Str("tool") then [UnknownDispatch] else [])
    + (if dispatch == Str("tool") && !Truthy(tool) then [DispatchWithoutTool] else [])
  }

  function SpecOf(d: Dict, meta: Dict, env: Env): OpenClaw {
    var user := Pop(d, UserInvocable, UserInvocableSnake);
    var disable := Pop(d, DisableModelInvocation, DisableModelInvocationSnake);
    OpenClaw(
      StrippedText(Get(d, HomepageKey)), if user.Bool? then user.b else true,
      if disable.Bool? then disable.b else false,
      StrippedText(Pop(d, CommandDispatch, CommandDispatchSnake)), StrippedText(Pop(d, CommandTool, CommandToolSnake)),
      StrippedText(Pop(d, CommandArgMode, CommandArgModeSnake)), Truthy(Get(meta, Always)),
      StrippedText(Get(meta, Emoji)),
      CoerceStrList(Get(meta, Os), env), StrippedText(Get(meta, PrimaryEnv)), StrippedText(Get(meta, SkillKey)),
      RequiresOf(meta, env), InstallOf(Get(meta, Install)))
  }

  function ExtractOpenclaw(d: Dict, env: Env): (r: (Option<OpenClaw>, seq<Warning>)) {
    var (metadata, warnings) := MetadataOf(d, env);
    var meta := AsTable(Get(metadata, OpenclawKey));
    (if HasSignal(d, meta) then Some(SpecOf(d, meta, env)) else None,
     warnings + OsWarnings(CoerceStrList(Get(meta, Os), env)) + CommandWarnings(d))
  }

  // ------------------------------------------------------------- what comes back

  /** An empty text counts as absent, any other is stripped (and may strip to nothing). */
  function NormalText(text: Option<string>): Option<string> {
    if Given(text) then Some(Strip(text.value)) else None
  }

  function NormalForm(o: OpenClaw): OpenClaw {
    o.(homepage := NormalText(o.homepage), commandDispatch := NormalText(o.commandDispatch),
       commandTool := NormalText(o.commandTool), commandArgMode := NormalText(o.commandArgMode),
       emoji := NormalText(o.emoji), os := Cleaned(o.os), primaryEnv := NormalText(o.primaryEnv),
       skillKey := NormalText(o.skillKey),
       requires_ := Requires(Cleaned(o.requires_.bins), Cleaned(o.requires_.anyBins), Cleaned(o.requires_.env),
                             Cleaned(o.requires_.config)))
  }

  predicate DefaultRequires(r: Requires) {
    r == Requires([], [], [], [])
  }

  /** Every field is at its default or an empty text. */
  predicate AllDefault(o: OpenClaw) {
    && !Given(o.homepage) && o.userInvocable && !o.disableModelInvocation
    && !Given(o.commandDispatch) && !Given(o.commandTool) && !Given(o.commandArgMode)
    && !o.always && !Given(o.emoji) && o.os == [] && !Given(o.primaryEnv) && !Given(o.skillKey)
    && DefaultRequires(o.requires_) && o.install == []
  }

  lemma CleanedNothing()
    ensures Cleaned([]) == []
  {
  }

  lemma RequiresReadBack(r: Requires, meta: Dict, env: Env)
    requires Get(meta, RequiresKey) == (if RequiresPayload(r) == map[] then Null else Table(RequiresPayload(r)))
    ensures RequiresOf(meta, env) == Requires(Cleaned(r.bins), Cleaned(r.anyBins), Cleaned(r.env), Cleaned(r.config))
  {
    hide CoerceItems, CleanedUpTo, NonBlank;
    var raw := AsTable(Get(meta, RequiresKey));
    assert raw == RequiresPayload(r);
    CoerceWritten(r.bins, env);
    CoerceWritten(r.anyBins, env);
    CoerceWritten(r.env, env);
    CoerceWritten(r.config, env);
    CleanedNothing();
    assert Get(raw, Bins) == if r.bins != [] then List(Strs(r.bins)) else Null;
  }

  /** What each key of the written metadata block holds. */
  lemma MetaFields(o: OpenClaw)
    ensures var m := MetaPayload(o);
      && Get(m, Always) == (if o.always then Bool(true) else Null)
      && Get(m, Emoji) == (if Given(o.emoji) then Text(o.emoji) else Null)
      && Get(m, Os) == (if o.os != [] then List(Strs(o.os)) else Null)
      && Get(m, PrimaryEnv) == (if Given(o.primaryEnv) then Text(o.primaryEnv) else Null)
      && Get(m, SkillKey) == (if Given(o.skillKey) then Text(o.skillKey) else Null)
      && Get(m, RequiresKey) == (if RequiresPayload(o.requires_) == map[] then Null
                                 else Table(RequiresPayload(o.requires_)))
      && Get(m, Install) == (if o.install != [] then List(Tables(o.install)) else Null)
  {
    hide RequiresPayload, Given, Text, Strs, Tables;
  }

  lemma MetaIsEmpty(o: OpenClaw)
    ensures MetaPayload(o) == map[] <==>
      !o.always && !Given(o.emoji) && o.os == [] && !Given(o.primaryEnv) && !Given(o.skillKey)
      && RequiresPayload(o.requires_) == map[] && o.install == []
  {
    hide RequiresPayload, Text, Strs, Tables, Given;
    MetaFields(o);
    var m := MetaPayload(o);
    if o.always { assert Always in m; }
    if Given(o.emoji) { assert Emoji in m; }
    if o.os != [] { assert Os in m; }
    if Given(o.primaryEnv) { assert PrimaryEnv in m; }
    if Given(o.skillKey) { assert SkillKey in m; }
    if RequiresPayload(o.requires_) != map[] { assert RequiresKey in m; }
    if o.install != [] { assert Install in m; }
  }

  /** What each key of the written front matter holds. */
  lemma WrittenFields(draft: Draft, o: OpenClaw)
    requires draft.openclaw == Some(o)
    ensures var d := FrontmatterOf(draft);
      && Get(d, NameKey) == Str(draft.name) && Get(d, DescriptionKey) == Str(draft.description)
      && Get(d, VersionKey) == Str(draft.version)
      && Get(d, MetadataKey) == (if MetaPayload(o) == map[] then Null
                                 else Table(map[OpenclawKey := Table(MetaPayload(o))]))
      && Get(d, TagsKey) == (if draft.tags != [] then List(Strs(draft.tags)) else Null)
    ensures FlagsWritten(FrontmatterOf(draft), o) && CommandsWritten(FrontmatterOf(draft), o)
  {
    hide MetaPayload, Given, Text, FlagFields, CommandFields, BaseFields, FlagsWritten, CommandsWritten, Same, With;
    var base := BaseFields(draft);
    var flags := FlagFields(base, o);
    BaseHolds(draft);
    FlagsHold(base, o);
    CommandsHold(flags, o);
    var d := FrontmatterOf(draft);
    forall k: Key | !k.MetadataKey? ensures Same(CommandFields(flags, o), d, k) {
      WithKeeps(CommandFields(flags, o), MetaPayload(o) != map[], MetadataKey,
          Table(map[OpenclawKey := Table(MetaPayload(o))]), k);
    }
    forall k: Key | !IsCommand(k) && !k.MetadataKey? ensures Same(flags, d, k) {
      SameChain(flags, CommandFields(flags, o), d, k);
    }
    forall k: Key | !IsFlag(k) && !IsCommand(k) && !k.MetadataKey? ensures Same(base, d, k) {
      SameChain(base, flags, d, k);
    }
    SameGets(base, d, NameKey);
    SameGets(base, d, DescriptionKey);
    SameGets(base, d, VersionKey);
    SameGets(base, d, TagsKey);
    FlagsStay(flags, d, o);
    CommandsStay(CommandFields(flags, o), d, o);
    WithGets(CommandFields(flags, o), MetaPayload(o) != map[], MetadataKey,
        Table(map[OpenclawKey := Table(MetaPayload(o))]));
  }

  lemma SameGets(a: Dict, b: Dict, key: Key)
    requires Same(a, b, key)
    ensures Get(b, key) == Get(a, key)
  {
  }

  lemma SameChain(a: Dict, b: Dict, c: Dict, key: Key)
    requires Same(a, b, key) && Same(b, c, key)
    ensures Same(a, c, key)
  {
  }

  lemma WithKeeps(d: Dict, present: bool, key: Key, value: Value, other: Key)
    requires key != other
    ensures Same(d, With(d, present, key, value), other)
  {
  }

  lemma WithGets(d: Dict, present: bool, key: Key, value: Value)
    requires key !in d
    ensures Get(With(d, present, key, value), key) == if present then value else Null
  {
  }

  predicate FlagsWritten(d: Dict, o: OpenClaw) {
    && Get(d, HomepageKey) == (if Given(o.homepage) then Text(o.homepage) else Null)
    && Pop(d, UserInvocable, UserInvocableSnake) == (if o.userInvocable then Null else Bool(false))
    && Pop(d, DisableModelInvocation, DisableModelInvocationSnake)
        == (if o.disableModelInvocation then Bool(true) else Null)
  }

  predicate CommandsWritten(d: Dict, o: OpenClaw) {
    && Pop(d, CommandDispatch, CommandDispatchSnake)
        == (if Given(o.commandDispatch) then Text(o.commandDispatch) else Null)
    && Pop(d, CommandTool, CommandToolSnake) == (if Given(o.commandTool) then Text(o.commandTool) else Null)
    && Pop(d, CommandArgMode, CommandArgModeSnake) == (if Given(o.commandArgMode) then Text(o.commandArgMode) else Null)
  }

  /** Two dictionaries agree on a key. */
  predicate Same(a: Dict, b: Dict, key: Key) {
    (key in a <==> key in b) && Get(a, key) == Get(b, key)
  }

  lemma FlagsStay(a: Dict, b: Dict, o: OpenClaw)
    requires FlagsWritten(a, o) && Same(a, b, HomepageKey) && Same(a, b, UserInvocable)
    requires Same(a, b, UserInvocableSnake)
    requires Same(a, b, DisableModelInvocation) && Same(a, b, DisableModelInvocationSnake)
    ensures FlagsWritten(b, o)
  {
    hide Given, Text;
  }

  lemma CommandsStay(a: Dict, b: Dict, o: OpenClaw)
    requires CommandsWritten(a, o) && Same(a, b, CommandDispatch) && Same(a, b, CommandDispatchSnake)
    requires Same(a, b, CommandTool) && Same(a, b, CommandToolSnake)
    requires Same(a, b, CommandArgMode) && Same(a, b, CommandArgModeSnake)
    ensures CommandsWritten(b, o)
  {
    hide Given, Text;
  }

  lemma BaseHolds(draft: Draft)
    ensures var d := BaseFields(draft);
      && (forall k :: k in d ==> k.NameKey? || k.DescriptionKey? || k.VersionKey? || k.TagsKey?)
      && Get(d, NameKey) == Str(draft.name) && Get(d, DescriptionKey) == Str(draft.description)
      && Get(d, VersionKey) == Str(draft.version)
      && Get(d, TagsKey) == (if draft.tags != [] then List(Strs(draft.tags)) else Null)
  {
    hide Strs;
  }

  predicate IsFlag(k: Key) {
    k.HomepageKey? || k.UserInvocable? || k.DisableModelInvocation?
  }

  predicate IsCommand(k: Key) {
    k.CommandDispatch? || k.CommandTool? || k.CommandArgMode?
  }

  lemma FlagsHold(d: Dict, o: OpenClaw)
    requires forall k :: k in d ==> k.NameKey? || k.DescriptionKey? || k.VersionKey? || k.TagsKey?
    ensures FlagsWritten(FlagFields(d, o), o)
    ensures forall k :: k in FlagFields(d, o) ==> IsFlag(k) || k in d
    ensures forall k :: !IsFlag(k) ==> Same(d, FlagFields(d, o), k)
  {
    hide Given, Text;
  }

  lemma CommandsHold(d: Dict, o: OpenClaw)
    requires forall k :: k in d ==> IsFlag(k) || k.NameKey? || k.DescriptionKey? || k.VersionKey? || k.TagsKey?
    ensures CommandsWritten(CommandFields(d, o), o)
    ensures forall k :: !IsCommand(k) ==> Same(d, CommandFields(d, o), k)
    ensures forall k :: k in CommandFields(d, o) ==> IsCommand(k) || k in d
  {
    hide Given, Text;
  }

  lemma PlainFields(draft: Draft)
    requires draft.openclaw == None
    ensures var d := FrontmatterOf(draft);
      && Get(d, NameKey) == Str(draft.name) && Get(d, DescriptionKey) == Str(draft.description)
      && Get(d, VersionKey) == Str(draft.version) && Get(d, MetadataKey) == Null && !HasSignal(d, map[])
      && CommandWarnings(d) == []
      && Get(d, TagsKey) == (if draft.tags != [] then List(Strs(draft.tags)) else Null)
  {
    hide Strs;
  }

  lemma {:induction false} TablesReadBack(install: seq<Dict>, k: nat)
    requires k <= |install|
    ensures TablesIn(Tables(install), k) == install[..k]
  {
    if k > 0 {
      TablesReadBack(install, k - 1);
      assert install[..k] == install[..k - 1] + [install[k - 1]];
    }
  }

  lemma InstallReadBack(install: seq<Dict>, v: Value)
    requires v == if install != [] then List(Tables(install)) else Null
    ensures InstallOf(v) == install
  {
    TablesReadBack(install, |install|);
    assert install[..|install|] == install;
  }

  lemma TextReadBack(text: Option<string>)
    ensures StrippedText(if Given(text) then Text(text) else Null) == NormalText(text)
    ensures Truthy(if Given(text) then Text(text) else Null) <==> Given(text)
  {
  }

  lemma OsReadBack(os: seq<string>, env: Env)
    ensures CoerceStrList(if os != [] then List(Strs(os)) else Null, env) == Cleaned(os)
  {
    hide NonBlank, CoerceItems, CleanedUpTo;
    CleanedNothing();
    CoerceWritten(os, env);
  }

  lemma MetadataReadBack(draft: Draft, o: OpenClaw, env: Env)
    requires draft.openclaw == Some(o)
    ensures MetadataOf(FrontmatterOf(draft), env).1 == []
    ensures AsTable(Get(MetadataOf(FrontmatterOf(draft), env).0, OpenclawKey)) == MetaPayload(o)
  {
    hide MetaPayload, FrontmatterOf;
    WrittenFields(draft, o);
  }

  /** The fields read back from a written draft are its own in normal form; there are none exactly
      when the draft has none or all of them are at their defaults. */
  lemma ExtractedIsNormalForm(draft: Draft, env: Env)
    ensures ExtractOpenclaw(FrontmatterOf(draft), env).0
            == if draft.openclaw.None? || AllDefault(draft.openclaw.value) then None
               else Some(NormalForm(draft.openclaw.value))
  {
    if draft.openclaw.None? {
      PlainFields(draft);
    } else {
      var o := draft.openclaw.value;
      MetadataReadBack(draft, o, env);
      SignalReadBack(draft, o);
      if !AllDefault(o) {
        SpecReadBack(draft, o, env);
      }
    }
    hide FrontmatterOf, HasSignal, SpecOf, NormalForm, AllDefault, MetaPayload;
  }

  lemma SignalReadBack(draft: Draft, o: OpenClaw)
    requires draft.openclaw == Some(o)
    ensures HasSignal(FrontmatterOf(draft), MetaPayload(o)) <==> !AllDefault(o)
  {
    hide MetaPayload, FrontmatterOf, RequiresPayload;
    WrittenFields(draft, o);
    MetaIsEmpty(o);
    RequiresIsEmpty(o.requires_);
  }

  lemma RequiresIsEmpty(r: Requires)
    ensures RequiresPayload(r) == map[] <==> DefaultRequires(r)
  {
    hide Strs;
    var d := RequiresPayload(r);
    if r.bins != [] { assert Bins in d; }
    if r.anyBins != [] { assert AnyBins in d; }
    if r.env != [] { assert Key.Env in d; }
    if r.config != [] { assert Config in d; }
  }

  lemma FlagsReadBack(d: Dict, o: OpenClaw)
    requires FlagsWritten(d, o)
    ensures StrippedText(Get(d, HomepageKey)) == NormalText(o.homepage)
    ensures var user := Pop(d, UserInvocable, UserInvocableSnake);
        (if user.Bool? then user.b else true) == o.userInvocable
    ensures var disable := Pop(d, DisableModelInvocation, DisableModelInvocationSnake);
      (if disable.Bool? then disable.b else false) == o.disableModelInvocation
  {
    hide Get, Pop;
    TextReadBack(o.homepage);
  }

  lemma CommandsReadBack(d: Dict, o: OpenClaw)
    requires CommandsWritten(d, o)
    ensures StrippedText(Pop(d, CommandDispatch, CommandDispatchSnake)) == NormalText(o.commandDispatch)
    ensures StrippedText(Pop(d, CommandTool, CommandToolSnake)) == NormalText(o.commandTool)
    ensures StrippedText(Pop(d, CommandArgMode, CommandArgModeSnake)) == NormalText(o.commandArgMode)
  {
    hide Get, Pop;
    TextReadBack(o.commandDispatch);
    TextReadBack(o.commandTool);
    TextReadBack(o.commandArgMode);
  }

  lemma MetaReadBack(m: Dict, o: OpenClaw, env: Env)
    requires m == MetaPayload(o)
    ensures Truthy(Get(m, Always)) == o.always && StrippedText(Get(m, Emoji)) == NormalText(o.emoji)
    ensures CoerceStrList(Get(m, Os), env) == Cleaned(o.os)
    ensures StrippedText(Get(m, PrimaryEnv)) == NormalText(o.primaryEnv)
    ensures StrippedText(Get(m, SkillKey)) == NormalText(o.skillKey) && InstallOf(Get(m, Install)) == o.install
    ensures RequiresOf(m, env) == NormalForm(o).requires_
  {
    hide MetaPayload, RequiresPayload, RequiresOf, CoerceStrList, InstallOf, StrippedText, NormalText, Text, Given,
        Cleaned;
    MetaFields(o);
    RequiresReadBack(o.requires_, m, env);
    InstallReadBack(o.install, Get(m, Install));
    OsReadBack(o.os, env);
    TextReadBack(o.emoji);
    TextReadBack(o.primaryEnv);
    TextReadBack(o.skillKey);
  }

  lemma SpecReadBack(draft: Draft, o: OpenClaw, env: Env)
    requires draft.openclaw == Some(o)
    ensures SpecOf(FrontmatterOf(draft), MetaPayload(o), env) == NormalForm(o)
  {
    hide MetaPayload, FrontmatterOf, RequiresOf, CoerceStrList, InstallOf, StrippedText, NormalText, Cleaned, Get, Pop,
         FlagsWritten, CommandsWritten, Truthy;
    WrittenFields(draft, o);
    FlagsReadBack(FrontmatterOf(draft), o);
    CommandsReadBack(FrontmatterOf(draft), o);
    MetaReadBack(MetaPayload(o), o, env);
  }

  // ------------------------------------------------------------- the manifest

  datatype Tested = Tested(platform: string, model: string, surface: string, date: string)

  function TestEntry(surface: string, today: string): Value {
    Table(map[Platform := Str("baselithbot"), Surface := Str(surface), ModelKey := Str("workspace-author"),
              StatusKey := Str("pass"), Date := Str(today)])
  }

  function TestEntries(surfaces: seq<string>, today: string): (r: seq<Value>) {
    seq(|surfaces|, i requires 0 <= i < |surfaces| => TestEntry(surfaces[i], today))
  }

  function ManifestOf(draft: Draft, today: string): Dict {
    var compatibility := map[DesignedFor := Table(map[Surfaces := List(Strs(draft.surfaces))]),
                             TestedOn := List(TestEntries(draft.surfaces, today))];
    With(map[BundleVersion := Str(draft.version), Compatibility := Table(compatibility)],
         draft.tags != [], TagsKey, List(Strs(draft.tags)))
  }

  /** str(entry.get(key, "")). */
  function Field(entry: Dict, key: Key, env: Env): string {
    if key in entry then StrOf(entry[key], env) else ""
  }

  function SurfacesIn(items: seq<Value>, k: nat, env: Env): (r: seq<string>)
    requires k <= |items|
  {
    if k == 0 then []
    else
      var text := Strip(StrOf(items[k - 1], env));
      SurfacesIn(items, k - 1, env) + if text != "" then [Lower(text)] else []
  }

  predicate Passing(v: Value, env: Env) {
    v.Table? && Lower(Strip(Field(v.fields, StatusKey, env))) == "pass"
  }

  function TestedOf(entry: Dict, env: Env): Tested {
    Tested(Field(entry, Platform, env), Field(entry, ModelKey, env), Field(entry, Surface, env),
        Field(entry, Date, env))
  }

  function TestedIn(items: seq<Value>, k: nat, env: Env): (r: seq<Tested>)
    requires k <= |items|
  {
    if k == 0 then []
    else TestedIn(items, k - 1, env) + if Passing(items[k - 1], env) then [TestedOf(items[k - 1].fields, env)] else []
  }

  function Members(list: seq<string>): set<string> {
    set s | s in list
  }

  function SurfaceWarnings(surfaces: seq<string>): (r: seq<Warning>) {
    if surfaces == [] then [NoSurfaces]
    else if forall s :: s in surfaces ==> !IsSupported(s) then [NoSupportedSurface]
    else []
  }

  /** The declared surfaces as a set, the warnings, and the passing test entries. */
  function EvaluateCompatibility(manifest: Dict, env: Env): (r: (set<string>, seq<Warning>, seq<Tested>)) {
    if !Get(manifest, Compatibility).Table? then ({}, [NoCompatibility], [])
    else
      var compatibility := Get(manifest, Compatibility).fields;
      var raw := Get(AsTable(Get(compatibility, DesignedFor)), Surfaces);
      var surfaces := if raw.List? then SurfacesIn(raw.items, |raw.items|, env) else [];
      var rawTested := Get(compatibility, TestedOn);
      var tested := if rawTested.List? then TestedIn(rawTested.items, |rawTested.items|, env) else [];
      (Members(surfaces),
       if tested == [] then SurfaceWarnings(surfaces) + [NoPassingTest] else SurfaceWarnings(surfaces),
       tested)
  }

  method Compatible(manifest: Dict, env: Env) returns (surfaces: set<string>, warnings: seq<Warning>,
                                                         tested: seq<Tested>)
    ensures (surfaces, warnings, tested) == EvaluateCompatibility(manifest, env)
  {
    hide Strip, Lower, TestedOf, Field, StrOf;
    if !Get(manifest, Compatibility).Table? {
      return {}, [NoCompatibility], [];
    }
    var compatibility := Get(manifest, Compatibility).fields;
    var raw := Get(AsTable(Get(compatibility, DesignedFor)), Surfaces);
    var listed := [];
    if raw.List? {
      for i := 0 to |raw.items|
        invariant listed == SurfacesIn(raw.items, i, env)
      {
        var text := Strip(StrOf(raw.items[i], env));
        if text != "" {
          listed := listed + [Lower(text)];
        }
      }
    }
    warnings := SurfaceWarnings(listed);
    tested := [];
    var rawTested := Get(compatibility, TestedOn);
    if rawTested.List? {
      for i := 0 to |rawTested.items|
        invariant tested == TestedIn(rawTested.items, i, env)
      {
        if Passing(rawTested.items[i], env) {
          tested := tested + [TestedOf(rawTested.items[i].fields, env)];
        }
      }
    }
    if tested == [] {
      warnings := warnings + [NoPassingTest];
    }
    surfaces := Members(listed);
  }

  lemma {:induction false} SurfacesReadBack(surfaces: seq<string>, k: nat, env: Env)
    requires k <= |surfaces| && forall s :: s in surfaces ==> IsSupported(s)
    ensures SurfacesIn(Strs(surfaces), k, env) == surfaces[..k]
  {
    hide Strip, Lower;
    if k > 0 {
      SurfacesReadBack(surfaces, k - 1, env);
      assert surfaces[k - 1] in surfaces;
      SupportedIsClean(surfaces[k - 1]);
      assert surfaces[..k] == surfaces[..k - 1] + [surfaces[k - 1]];
    }
  }

  predicate PlainWord(s: string) {
    s != "" && forall i :: 0 <= i < |s| ==> 'a' <= s[i] <= 'z' || '0' <= s[i] <= '9'
  }

  lemma PlainWordIsClean(s: string)
    requires PlainWord(s)
    ensures Strip(s) == s && Lower(s) == s && NonBlank(s) == [s]
  {
    hide Strip;
    StripFacts(s);
  }

  lemma KnownWords()
    ensures PlainWord("chat") && PlainWord("cli") && PlainWord("ide") && PlainWord("pass")
    ensures PlainWord("darwin") && PlainWord("linux") && PlainWord("win32")
  {
  }

  lemma SupportedIsClean(s: string)
    requires IsSupported(s)
    ensures Strip(s) == s != "" && Lower(s) == s
  {
    hide Strip, Lower, PlainWord;
    KnownWords();
    assert s == "chat" || s == "cli" || s == "ide";
    PlainWordIsClean(s);
  }

  lemma OsIsClean(s: string)
    requires IsOs(s)
    ensures NonBlank(s) == [s]
  {
    hide NonBlank, PlainWord;
    KnownWords();
    assert s == "darwin" || s == "linux" || s == "win32";
    PlainWordIsClean(s);
  }

  lemma TestedReadBack(surface: string, today: string, env: Env)
    ensures var entry := TestEntry(surface, today);
      Passing(entry, env) && TestedOf(entry.fields, env) == Tested("baselithbot", "workspace-author", surface, today)
  {
    hide Strip, Lower, PlainWord;
    KnownWords();
    PlainWordIsClean("pass");
  }

  function TestedFor(surfaces: seq<string>, today: string): (r: seq<Tested>) {
    seq(|surfaces|, i requires 0 <= i < |surfaces| => Tested("baselithbot", "workspace-author", surfaces[i], today))
  }

  lemma {:induction false} TestsReadBack(surfaces: seq<string>, k: nat, today: string, env: Env)
    requires k <= |surfaces|
    ensures TestedIn(TestEntries(surfaces, today), k, env) == TestedFor(surfaces, today)[..k]
  {
    hide Passing, TestedOf, TestEntry;
    if k > 0 {
      TestsReadBack(surfaces, k - 1, today, env);
      TestedReadBack(surfaces[k - 1], today, env);
      var all := TestedFor(surfaces, today);
      assert all[..k] == all[..k - 1] + [all[k - 1]];
    }
  }

  /** A written manifest declares exactly the draft's surfaces, with one passing test for each. */
  lemma ManifestReadBack(draft: Draft, today: string, env: Env)
    requires draft.surfaces != [] && forall s :: s in draft.surfaces ==> IsSupported(s)
    ensures EvaluateCompatibility(ManifestOf(draft, today), env)
            == (Members(draft.surfaces), [], TestedFor(draft.surfaces, today))
    ensures Get(ManifestOf(draft, today), BundleVersion) == Str(draft.version)
    ensures Get(ManifestOf(draft, today), TagsKey) == if draft.tags != [] then List(Strs(draft.tags)) else Null
  {
    hide SurfacesIn, TestedIn, Strs, TestEntries, TestedFor, Members;
    var n := |draft.surfaces|;
    LengthsAgree(draft.surfaces, today);
    SurfacesReadBack(draft.surfaces, n, env);
    TestsReadBack(draft.surfaces, n, today, env);
    assert draft.surfaces[..n] == draft.surfaces && TestedFor(draft.surfaces, today)[..n]
        == TestedFor(draft.surfaces, today);
    assert draft.surfaces[0] in draft.surfaces;
  }

  lemma LengthsAgree(surfaces: seq<string>, today: string)
    ensures |Strs(surfaces)| == |TestEntries(surfaces, today)| == |TestedFor(surfaces, today)| == |surfaces|
  {
  }

  // ------------------------------------------------------------- authoring

  /** One of each, in the order of first appearance, among the first k. */
  function UniqueUpTo(list: seq<string>, k: nat): (r: seq<string>)
    requires k <= |list|
  {
    if k == 0 then []
    else if list[k - 1] in UniqueUpTo(list, k - 1) then UniqueUpTo(list, k - 1)
    else UniqueUpTo(list, k - 1) + [list[k - 1]]
  }

  lemma {:induction false} UniqueFacts(list: seq<string>, k: nat)
    requires k <= |list|
    ensures var u := UniqueUpTo(list, k);
      && Distinct(u) && (forall x :: x in u <==> x in list[..k])
      && (Distinct(list[..k]) ==> u == list[..k]) && (k > 0 ==> UniqueUpTo(list, k - 1) <= u)
  {
    if k > 0 {
      UniqueFacts(list, k - 1);
      assert list[..k] == list[..k - 1] + [list[k - 1]];
    }
  }

  /** Entries stripped and lowered, the blank ones dropped. */
  function LoweredUpTo(values: seq<string>, k: nat): (r: seq<string>)
    requires k <= |values|
  {
    if k == 0 then []
    else LoweredUpTo(values, k - 1) + if Lower(Strip(values[k - 1])) == "" then [] else [Lower(Strip(values[k - 1]))]
  }

  lemma {:induction false} LoweredMembers(values: seq<string>, k: nat, s: string)
    requires k <= |values|
    ensures s in LoweredUpTo(values, k) <==> s != "" && exists i :: 0 <= i < k && s == Lower(Strip(values[i]))
  {
    hide Strip, Lower;
    if k > 0 {
      LoweredMembers(values, k - 1, s);
    }
  }

  /** The surfaces validator: None where it raises. Its result is never empty, has no duplicates
      and holds exactly the surfaces that were named, in the order they were first named. */
  method ValidSurfaces(values: seq<string>) returns (r: Option<seq<string>>)
    ensures var named := LoweredUpTo(values, |values|);
      && (r.Some? <==> named != [] && forall s :: s in named ==> IsSupported(s))
      && (r.Some? ==> r.value == UniqueUpTo(named, |named|))
  {
    hide Strip, Lower;
    var cleaned := [];
    for i := 0 to |values|
      invariant cleaned == LoweredUpTo(values, i)
      invariant forall s :: s in cleaned ==> IsSupported(s)
    {
      var normalized := Lower(Strip(values[i]));
      if normalized != "" {
        if !IsSupported(normalized) {
          LoweredStays(values, i + 1, |values|, normalized);
          return None;
        }
        cleaned := cleaned + [normalized];
      }
    }
    if cleaned == [] {
      return None;
    }
    var unique := [];
    for i := 0 to |cleaned|
      invariant unique == UniqueUpTo(cleaned, i)
    {
      if cleaned[i] !in unique {
        unique := unique + [cleaned[i]];
      }
    }
    r := Some(unique);
  }

  lemma {:induction false} LoweredStays(values: seq<string>, i: nat, k: nat, s: string)
    requires i <= k <= |values| && s in LoweredUpTo(values, i)
    ensures s in LoweredUpTo(values, k)
    decreases k
  {
    hide Strip, Lower;
    if i < k {
      LoweredStays(values, i, k - 1, s);
    }
  }

  /** The os validator, which also drops duplicates as it goes. */
  method ValidOs(values: seq<string>) returns (r: Option<seq<string>>)
    ensures var named := LoweredUpTo(values, |values|);
      && (r.Some? <==> forall s :: s in named ==> IsOs(s))
      && (r.Some? ==> r.value == UniqueUpTo(named, |named|))
  {
    hide Strip, Lower, UniqueUpTo;
    UniqueNothing();
    var cleaned := [];
    ghost var named := [];
    for i := 0 to |values|
      invariant named == LoweredUpTo(values, i)
      invariant cleaned == UniqueUpTo(named, |named|)
      invariant forall s :: s in named ==> IsOs(s)
    {
      var normalized := Lower(Strip(values[i]));
      if normalized != "" {
        if !IsOs(normalized) {
          LoweredStays(values, i + 1, |values|, normalized);
          return None;
        }
        UniqueAppended(named, normalized);
        named := named + [normalized];
        if normalized !in cleaned {
          cleaned := cleaned + [normalized];
        }
      }
    }
    r := Some(cleaned);
  }

  lemma UniqueNothing()
    ensures UniqueUpTo([], 0) == []
  {
  }

  lemma {:induction false} UniquePrefix(list: seq<string>, x: string, k: nat)
    requires k <= |list|
    ensures UniqueUpTo(list + [x], k) == UniqueUpTo(list, k)
  {
    if k > 0 {
      UniquePrefix(list, x, k - 1);
      assert (list + [x])[k - 1] == list[k - 1];
    }
  }

  lemma UniqueAppended(list: seq<string>, x: string)
    ensures var u := UniqueUpTo(list, |list|);
      UniqueUpTo(list + [x], |list| + 1) == if x in u then u else u + [x]
  {
    UniquePrefix(list, x, |list|);
    assert (list + [x])[|list|] == x;
  }

  /** What the validators leave of a draft. */
  predicate Validated(draft: Draft) {
    && draft.name != "" && draft.description != ""
    && draft.surfaces != [] && (forall s :: s in draft.surfaces ==> IsSupported(s)) && Distinct(draft.surfaces)
    && (draft.openclaw.Some? ==>
          && (draft.openclaw.value.commandDispatch.Some? ==> draft.openclaw.value.commandDispatch == Some("tool"))
          && (forall s :: s in draft.openclaw.value.os ==> IsOs(s)))
  }

  // ------------------------------------------------------------- one bundle, there and back

  datatype Status = Verified | Provisional | Invalid

  datatype SpecError = SkillTextMissing | ManifestNotTable | ManifestRaises | NoName | NoDescription

  datatype Spec = Spec(
    slug: string, name: string, version: string, description: string, status: Status, errors: seq<SpecError>,
    warnings: seq<Warning>, surfaces: set<string>, tested: seq<Tested>, openclaw: Option<OpenClaw>)

  function StatusOf(errors: seq<SpecError>, warnings: seq<Warning>): Status {
    if errors != [] then Invalid else if warnings != [] then Provisional else Verified
  }

  /** The manifest file as loaded. */
  function ManifestFrom(text: Option<string>, env: Env): (r: (Dict, seq<SpecError>)) {
    if text.None? then (map[], [])
    else
      match env.load(text.value)
      case None => (map[], [ManifestRaises])
      case Some(v) =>
        if !Truthy(v) then (map[], []) else if v.Table? then (v.fields, []) else (map[], [ManifestNotTable])
  }

  function OrElse(v: Value, fallback: Value): Value {
    if Truthy(v) then v else fallback
  }

  /** The spec of one skill from its two dictionaries and the errors of its files. */
  function SpecFrom(dir: string, front: Dict, manifest: Dict, fileErrors: seq<SpecError>, env: Env): (r: Spec) {
    var name := Strip(StrOf(OrElse(Get(front, NameKey), Str(dir)), env));
    var description := Strip(StrOf(OrElse(Get(front, DescriptionKey), Str("")), env));
    var (openclaw, openclawWarnings) := ExtractOpenclaw(front, env);
    var (surfaces, compatWarnings, tested) := EvaluateCompatibility(manifest, env);
    var errors := fileErrors + (if name == "" then [NoName] else [])
        + (if description == "" then [NoDescription] else []);
    var warnings := openclawWarnings + compatWarnings;
    var version := StrOf(OrElse(Get(manifest, BundleVersion), OrElse(Get(front, VersionKey), Str("0.0.0"))), env);
    Spec(dir, name, version, description, StatusOf(errors, warnings), errors, warnings, surfaces, tested, openclaw)
  }

  /** What discovery makes of one skill directory; None where reading the front matter raises. */
  function Discovered(dir: string, skillText: Option<string>, manifestText: Option<string>, env: Env)
    : (r: Option<Spec>) {
    var front := if skillText.None? then Some(map[]) else Frontmatter(skillText.value, env);
    if front.None? then None
    else
      var (manifest, manifestErrors) := ManifestFrom(manifestText, env);
      var errors := (if skillText.None? then [SkillTextMissing] else []) + manifestErrors;
      Some(SpecFrom(dir, front.value, manifest, errors, env))
  }

  /** Dispatch to a tool that is not named. */
  predicate DispatchesNowhere(draft: Draft) {
    draft.openclaw.Some? && Given(draft.openclaw.value.commandDispatch) && !Given(draft.openclaw.value.commandTool)
  }

  lemma {:induction false} NoOsWarnings(os: seq<string>)
    requires forall s :: s in os ==> IsOs(s)
    ensures OsWarnings(os) == []
  {
    if os != [] {
      NoOsWarnings(os[1..]);
    }
  }

  lemma OsUnchanged(os: seq<string>)
    requires forall s :: s in os ==> IsOs(s)
    ensures Cleaned(os) == os && OsWarnings(Cleaned(os)) == []
  {
    hide NonBlank;
    forall i | 0 <= i < |os| ensures NonBlank(os[i]) == [os[i]] {
      assert os[i] in os;
      OsIsClean(os[i]);
    }
    CleanedKeeps(os, |os|);
    assert os[..|os|] == os;
    NoOsWarnings(os);
  }

  /** The only warning a validated draft can get from its front matter. */
  lemma WrittenWarnings(draft: Draft, env: Env)
    requires Validated(draft)
    ensures ExtractOpenclaw(FrontmatterOf(draft), env).1
            == if DispatchesNowhere(draft) then [DispatchWithoutTool] else []
  {
    hide FrontmatterOf, HasSignal, SpecOf, MetaPayload, CoerceStrList, Cleaned;
    if draft.openclaw.None? {
      PlainFields(draft);
      PlainMetadata(draft, env);
    } else {
      var o := draft.openclaw.value;
      MetadataReadBack(draft, o, env);
      MetaReadBack(MetaPayload(o), o, env);
      OsUnchanged(o.os);
      WrittenFields(draft, o);
      WrittenCommandWarnings(FrontmatterOf(draft), o);
    }
  }

  lemma PlainMetadata(draft: Draft, env: Env)
    requires draft.openclaw == None
    ensures MetadataOf(FrontmatterOf(draft), env) == (map[], [])
    ensures OsWarnings(CoerceStrList(Get(map[], Os), env)) == []
  {
    hide FrontmatterOf;
    PlainFields(draft);
  }

  lemma WrittenCommandWarnings(d: Dict, o: OpenClaw)
    requires CommandsWritten(d, o) && (o.commandDispatch.Some? ==> o.commandDispatch == Some("tool"))
    ensures CommandWarnings(d)
            == if Given(o.commandDispatch) && !Given(o.commandTool) then [DispatchWithoutTool] else []
  {
    hide Pop, Get;
  }

  /** The spec that a validated draft comes back as. */
  function ExpectedSpec(draft: Draft, today: string): Spec {
    var errors := (if Blank(draft.name) then [NoName] else [])
        + (if Blank(draft.description) then [NoDescription] else []);
    var warnings := if DispatchesNowhere(draft) then [DispatchWithoutTool] else [];
    Spec(draft.slug, Strip(draft.name), if draft.version != "" then draft.version else "0.0.0",
         Strip(draft.description),
         StatusOf(errors, warnings), errors, warnings, Members(draft.surfaces), TestedFor(draft.surfaces, today),
         if draft.openclaw.None? || AllDefault(draft.openclaw.value) then None
         else Some(NormalForm(draft.openclaw.value)))
  }

  lemma SpecFromDraft(draft: Draft, today: string, env: Env)
    requires Validated(draft)
    ensures SpecFrom(draft.slug, FrontmatterOf(draft), ManifestOf(draft, today), [], env) == ExpectedSpec(draft, today)
  {
    hide FrontmatterOf, ManifestOf, ExtractOpenclaw, EvaluateCompatibility, Strip, Members, TestedFor, NormalForm,
         AllDefault, DispatchesNowhere, Get, StatusOf, Blank;
    ExtractedIsNormalForm(draft, env);
    WrittenWarnings(draft, env);
    ManifestReadBack(draft, today, env);
    NamesReadBack(draft);
    StripFacts(draft.name);
    StripFacts(draft.description);
    var spec := SpecFrom(draft.slug, FrontmatterOf(draft), ManifestOf(draft, today), [], env);
    var expected := ExpectedSpec(draft, today);
    assert spec.errors == expected.errors;
    assert spec.warnings == expected.warnings;
  }

  /** Writing a validated draft and discovering it again gives back its fields, whatever YAML
      makes of the dictionaries as long as it loads what it dumped. */
  lemma WriteThenDiscover(draft: Draft, rendered: string, manifestText: string, today: string, env: Env)
    requires Validated(draft) && !HasFence(rendered)
    requires env.load(rendered) == Some(Table(FrontmatterOf(draft)))
    requires env.load(manifestText) == Some(Table(ManifestOf(draft, today)))
    ensures Discovered(draft.slug, Some(SkillText(rendered, draft.instructions)), Some(manifestText), env)
            == Some(ExpectedSpec(draft, today))
  {
    hide FrontmatterOf, ManifestOf, SpecFrom, ExpectedSpec, FrontmatterText, SkillText;
    FrontmatterRoundTrip(rendered, draft.instructions);
    SpecFromDraft(draft, today, env);
    ManifestIsGiven(draft, today);
    assert [] + ManifestFrom(Some(manifestText), env).1 == [];
  }

  lemma NamesReadBack(draft: Draft)
    ensures var d := FrontmatterOf(draft);
      Get(d, NameKey) == Str(draft.name) && Get(d, DescriptionKey) == Str(draft.description)
      && Get(d, VersionKey) == Str(draft.version)
  {
    hide FrontmatterOf;
    if draft.openclaw.None? {
      PlainFields(draft);
    } else {
      WrittenFields(draft, draft.openclaw.value);
    }
  }

  lemma ManifestIsGiven(draft: Draft, today: string)
    ensures ManifestOf(draft, today) != map[]
  {
    assert BundleVersion in ManifestOf(draft, today);
  }

  /** A written draft is verified exactly when its name and description are not blank and tool
      dispatch names a tool; it is invalid exactly when one of the two is blank. */
  lemma VerifiedExactly(draft: Draft, rendered: string, manifestText: string, today: string, env: Env)
    requires Validated(draft) && !HasFence(rendered)
    requires env.load(rendered) == Some(Table(FrontmatterOf(draft)))
    requires env.load(manifestText) == Some(Table(ManifestOf(draft, today)))
    ensures var r := Discovered(draft.slug, Some(SkillText(rendered, draft.instructions)), Some(manifestText), env);
      && r.Some?
      && (r.value.status == Verified <==> !Blank(draft.name) && !Blank(draft.description) && !DispatchesNowhere(draft))
      && (r.value.status == Invalid <==> Blank(draft.name) || Blank(draft.description))
  {
    hide FrontmatterOf, ManifestOf, Discovered, Strip, Members, TestedFor, NormalForm, AllDefault, DispatchesNowhere,
         Blank, SkillText, HasFence;
    WriteThenDiscover(draft, rendered, manifestText, today, env);
  }

  // ------------------------------------------------------------- what discovery finds wrong

  lemma {:induction false} CoerceMembers(items: seq<Value>, k: nat, env: Env, s: string)
    requires k <= |items|
    ensures s in CoerceItems(items, k, env) <==> s != "" && exists i :: 0 <= i < k && Strip(StrOf(items[i], env)) == s
  {
    hide Strip, StrOf;
    if k > 0 {
      CoerceMembers(items, k - 1, env, s);
    }
  }

  lemma {:induction false} OsWarned(os: seq<string>)
    ensures OsWarnings(os) == [] <==> forall s :: s in os ==> IsOs(s)
    ensures forall w :: w in OsWarnings(os) <==> w.UnknownOs? && w.value in os && !IsOs(w.value)
  {
    if os != [] {
      OsWarned(os[1..]);
      assert os == [os[0]] + os[1..];
    }
  }

  lemma {:induction false} SurfacesMembers(items: seq<Value>, k: nat, env: Env, s: string)
    requires k <= |items|
    ensures s in SurfacesIn(items, k, env) <==>
      exists i :: 0 <= i < k && Strip(StrOf(items[i], env)) != "" && Lower(Strip(StrOf(items[i], env))) == s
  {
    hide Strip, StrOf, Lower;
    if k > 0 {
      SurfacesMembers(items, k - 1, env, s);
    }
  }

  /** A test entry whose status reads "pass", whatever its case and the white space around it. */
  predicate Passes(v: Value, env: Env) {
    v.Table? && StatusKey in v.fields && Lower(Strip(StrOf(v.fields[StatusKey], env))) == "pass"
  }

  lemma PassingExactly(v: Value, env: Env)
    ensures Passing(v, env) <==> Passes(v, env)
  {
    hide Lower, StrOf;
    NothingStripped();
    LowerFacts("");
  }

  lemma NothingStripped()
    ensures Strip("") == ""
  {
  }

  lemma {:induction false} SomeTestPasses(items: seq<Value>, k: nat, env: Env)
    requires k <= |items|
    ensures TestedIn(items, k, env) != [] <==> exists i :: 0 <= i < k && Passes(items[i], env)
  {
    hide Passing, Passes, TestedOf;
    if k > 0 {
      SomeTestPasses(items, k - 1, env);
      PassingExactly(items[k - 1], env);
    }
  }

  /** The manifest declares a supported surface and a passing test. */
  predicate Vouches(manifest: Dict, env: Env) {
    Get(manifest, Compatibility).Table? &&
    var compatibility := Get(manifest, Compatibility).fields;
    var surfaces := Get(AsTable(Get(compatibility, DesignedFor)), Surfaces);
    var tests := Get(compatibility, TestedOn);
    && surfaces.List? && tests.List?
    && (exists i :: 0 <= i < |surfaces.items| && IsSupported(Lower(Strip(StrOf(surfaces.items[i], env)))))
    && exists i :: 0 <= i < |tests.items| && Passes(tests.items[i], env)
  }

  lemma SupportedSurfaceFound(items: seq<Value>, env: Env)
    ensures SurfaceWarnings(SurfacesIn(items, |items|, env)) == [] <==>
      exists i :: 0 <= i < |items| && IsSupported(Lower(Strip(StrOf(items[i], env))))
  {
    hide Strip, StrOf, Lower, SurfacesIn, IsSupported;
    var listed := SurfacesIn(items, |items|, env);
    if SurfaceWarnings(listed) == [] {
      var s :| s in listed && IsSupported(s);
      SurfacesMembers(items, |items|, env, s);
    }
    if i :| 0 <= i < |items| && IsSupported(Lower(Strip(StrOf(items[i], env)))) {
      var s := Lower(Strip(StrOf(items[i], env)));
      SupportedIsText(Strip(StrOf(items[i], env)));
      SurfacesMembers(items, |items|, env, s);
      assert s in listed;
    }
  }

  lemma SupportedIsText(s: string)
    requires IsSupported(Lower(s))
    ensures s != ""
  {
  }

  /** A manifest draws no warning exactly when it vouches for the skill. */
  lemma ManifestWarnsExactly(manifest: Dict, env: Env)
    ensures EvaluateCompatibility(manifest, env).1 == [] <==> Vouches(manifest, env)
  {
    hide Strip, StrOf, Lower, SurfacesIn, TestedIn, Passing, Passes, IsSupported, SurfaceWarnings, Members;
    if Get(manifest, Compatibility).Table? {
      var compatibility := Get(manifest, Compatibility).fields;
      var surfaces := Get(AsTable(Get(compatibility, DesignedFor)), Surfaces);
      var tests := Get(compatibility, TestedOn);
      NoSurfacesWarns();
      if surfaces.List? {
        SupportedSurfaceFound(surfaces.items, env);
      }
      if tests.List? {
        SomeTestPasses(tests.items, |tests.items|, env);
      }
    }
  }

  lemma NoSurfacesWarns()
    ensures SurfaceWarnings([]) == [NoSurfaces]
  {
  }

  /** The front matter is in order: inline metadata parses, every system is known, and dispatch is
      to a tool that is named. */
  predicate InOrder(front: Dict, env: Env) {
    var dispatch := Pop(front, CommandDispatch, CommandDispatchSnake);
    var meta := AsTable(Get(MetadataOf(front, env).0, OpenclawKey));
    && (Get(front, MetadataKey).Str? ==> env.load(Get(front, MetadataKey).s).Some?)
    && (forall s :: s in CoerceStrList(Get(meta, Os), env) ==> IsOs(s))
    && (Truthy(dispatch) ==> dispatch == Str("tool") && Truthy(Pop(front, CommandTool, CommandToolSnake)))
  }

  lemma FrontWarnsExactly(front: Dict, env: Env)
    ensures ExtractOpenclaw(front, env).1 == [] <==> InOrder(front, env)
  {
    hide HasSignal, SpecOf, CoerceStrList, IsOs;
    var meta := AsTable(Get(MetadataOf(front, env).0, OpenclawKey));
    OsWarned(CoerceStrList(Get(meta, Os), env));
  }

  /** Which skill directories are invalid and which verified, whatever their files hold. */
  lemma StatusExactly(dir: string, skillText: Option<string>, manifestText: Option<string>, env: Env)
    ensures var r := Discovered(dir, skillText, manifestText, env);
      r.Some? ==>
        var front := if skillText.None? then map[] else Frontmatter(skillText.value, env).value;
        var loaded := if manifestText.None? then Some(Null) else env.load(manifestText.value);
        var manifest := if loaded.Some? then AsTable(loaded.value) else map[];
        var name := if Truthy(Get(front, NameKey)) then StrOf(Get(front, NameKey), env) else dir;
        var description := if Truthy(Get(front, DescriptionKey)) then StrOf(Get(front, DescriptionKey), env) else "";
        var version := if Truthy(Get(manifest, BundleVersion)) then StrOf(Get(manifest, BundleVersion), env)
                       else if Truthy(Get(front, VersionKey)) then StrOf(Get(front, VersionKey), env) else "0.0.0";
        && r.value.name == Strip(name) && r.value.description == Strip(description) && r.value.version == version
        && (r.value.status == Invalid <==>
              || skillText.None? || loaded.None? || (Truthy(loaded.value) && !loaded.value.Table?)
              || Blank(name) || Blank(description))
        && (r.value.status == Verified <==>
              r.value.status != Invalid && InOrder(front, env) && Vouches(manifest, env))
  {
    hide Frontmatter, Strip, Blank, InOrder, Vouches, ExtractOpenclaw, EvaluateCompatibility, StrOf;
    if skillText.None? || Frontmatter(skillText.value, env).Some? {
      var front := if skillText.None? then map[] else Frontmatter(skillText.value, env).value;
      var manifest := ManifestFrom(manifestText, env).0;
      FrontWarnsExactly(front, env);
      ManifestWarnsExactly(manifest, env);
      StripFacts(if Truthy(Get(front, NameKey)) then StrOf(Get(front, NameKey), env) else dir);
      StripFacts(if Truthy(Get(front, DescriptionKey)) then StrOf(Get(front, DescriptionKey), env) else "");
      TextShowsItself(dir, env);
      TextShowsItself("", env);
      TextShowsItself("0.0.0", env);
    }
  }

  lemma TextShowsItself(s: string, env: Env)
    ensures StrOf(Str(s), env) == s
  {
  }

  /** The list of alternative programs may go under either key; the second counts when the first says nothing. */
  lemma EitherAnyBins(meta: Dict, raw: Dict, v: Value, env: Env)
    requires Get(meta, RequiresKey) == Table(raw) && AnyBinsSnake !in raw
    ensures var moved := meta[RequiresKey := Table((raw - {AnyBins})[AnyBinsSnake := Get(raw, AnyBins)])];
      Truthy(Get(raw, AnyBins)) ==> RequiresOf(moved, env) == RequiresOf(meta, env)
    ensures var both := meta[RequiresKey := Table(raw[AnyBinsSnake := v])];
      Truthy(Get(raw, AnyBins)) ==> RequiresOf(both, env) == RequiresOf(meta, env)
  {
    hide CoerceStrList, Truthy;
    assert !Truthy(Null) by { NullSaysNothing(); }
  }

  lemma NullSaysNothing()
    ensures !Truthy(Null)
  {
  }

  /** The keys that may be written with dashes or with underscores. */
  predicate Spellings(dashed: Key, snake: Key) {
    || (dashed == UserInvocable && snake == UserInvocableSnake)
    || (dashed == DisableModelInvocation && snake == DisableModelInvocationSnake)
    || (dashed == CommandDispatch && snake == CommandDispatchSnake)
    || (dashed == CommandTool && snake == CommandToolSnake)
    || (dashed == CommandArgMode && snake == CommandArgModeSnake)
  }

  /** The two dictionaries say the same to the loader of the front matter's own fields. */
  predicate SaySame(d: Dict, e: Dict) {
    && Get(d, MetadataKey) == Get(e, MetadataKey) && Get(d, HomepageKey) == Get(e, HomepageKey)
    && Pop(d, UserInvocable, UserInvocableSnake) == Pop(e, UserInvocable, UserInvocableSnake)
    && Pop(d, DisableModelInvocation, DisableModelInvocationSnake)
        == Pop(e, DisableModelInvocation, DisableModelInvocationSnake)
    && Pop(d, CommandDispatch, CommandDispatchSnake) == Pop(e, CommandDispatch, CommandDispatchSnake)
    && Pop(d, CommandTool, CommandToolSnake) == Pop(e, CommandTool, CommandToolSnake)
    && Pop(d, CommandArgMode, CommandArgModeSnake) == Pop(e, CommandArgMode, CommandArgModeSnake)
  }

  lemma SameFields(d: Dict, e: Dict, meta: Dict, env: Env)
    requires SaySame(d, e)
    ensures HasSignal(d, meta) == HasSignal(e, meta)
    ensures SpecOf(d, meta, env) == SpecOf(e, meta, env)
    ensures CommandWarnings(d) == CommandWarnings(e)
  {
    hide CoerceStrList, InstallOf, RequiresOf, StrippedText, Truthy, Pop, Get;
  }

  lemma SameExtracted(d: Dict, e: Dict, env: Env)
    requires SaySame(d, e)
    ensures ExtractOpenclaw(d, env) == ExtractOpenclaw(e, env)
  {
    hide CoerceStrList, OsWarnings, AsTable, Get, HasSignal, SpecOf, CommandWarnings;
    SameFields(d, e, AsTable(Get(MetadataOf(d, env).0, OpenclawKey)), env);
  }

  lemma SpellingsSaySame(d: Dict, dashed: Key, snake: Key, v: Value)
    requires Spellings(dashed, snake)
    ensures SaySame(d[snake := v], if dashed in d then d else d[dashed := v])
  {
  }

  /** A field written with underscores is read like one with dashes, which takes precedence. */
  lemma EitherSpelling(d: Dict, dashed: Key, snake: Key, v: Value, env: Env)
    requires Spellings(dashed, snake)
    ensures dashed in d ==> ExtractOpenclaw(d[snake := v], env) == ExtractOpenclaw(d, env)
    ensures dashed !in d ==> ExtractOpenclaw(d[snake := v], env) == ExtractOpenclaw(d[dashed := v], env)
  {
    hide *;
    SpellingsSaySame(d, dashed, snake, v);
    SameExtracted(d[snake := v], if dashed in d then d else d[dashed := v], env);
  }

  // ------------------------------------------------------------- what is kept as it was

  predicate NormalList(list: seq<string>) {
    forall v :: v in list ==> v != "" && Trimmed(v)
  }

  predicate NormalOption(text: Option<string>) {
    text.Some? ==> text.value != "" && Trimmed(text.value)
  }

  lemma CleanedMembers(list: seq<string>, k: nat)
    requires k <= |list|
    ensures forall v :: v in CleanedUpTo(list, k) ==> v != "" && Trimmed(v)
  {
    hide Strip, Trimmed;
    if k > 0 {
      CleanedMembers(list, k - 1);
      StripFacts(list[k - 1]);
    }
  }

  lemma CleanedExactly(list: seq<string>)
    ensures Cleaned(list) == list <==> NormalList(list)
  {
    hide Strip, Trimmed;
    CleanedMembers(list, |list|);
    if NormalList(list) {
      forall i | 0 <= i < |list| ensures NonBlank(list[i]) == [list[i]] {
        assert list[i] in list;
        StripFacts(list[i]);
      }
      CleanedKeeps(list, |list|);
      assert list[..|list|] == list;
    }
  }

  lemma TextExactly(text: Option<string>)
    ensures NormalText(text) == text <==> NormalOption(text)
  {
    hide Strip, Trimmed;
    if text.Some? {
      StripFacts(text.value);
    }
  }

  /** The round trip changes nothing exactly when every text is absent or trimmed and non-empty,
      and every list holds only such texts. */
  lemma RoundTripIsExact(o: OpenClaw)
    ensures NormalForm(o) == o <==>
      NormalOption(o.homepage) && NormalOption(o.commandDispatch) && NormalOption(o.commandTool)
      && NormalOption(o.commandArgMode) && NormalOption(o.emoji) && NormalList(o.os) && NormalOption(o.primaryEnv)
      && NormalOption(o.skillKey) && NormalList(o.requires_.bins) && NormalList(o.requires_.anyBins)
      && NormalList(o.requires_.env) && NormalList(o.requires_.config)
  {
    hide NormalText, NormalOption, NormalList, Cleaned;
    TextExactly(o.homepage);
    TextExactly(o.commandDispatch);
    TextExactly(o.commandTool);
    TextExactly(o.commandArgMode);
    TextExactly(o.emoji);
    TextExactly(o.primaryEnv);
    TextExactly(o.skillKey);
    CleanedExactly(o.os);
    CleanedExactly(o.requires_.bins);
    CleanedExactly(o.requires_.anyBins);
    CleanedExactly(o.requires_.env);
    CleanedExactly(o.requires_.config);
  }
}
