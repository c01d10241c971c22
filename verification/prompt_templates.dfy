/**
 `loadPrompt` and `promptTemplate`: the prompt source (file, inline text or
 none), the prompt-type names, the per-type template fields, and the
 `[inputText]` substitution.
 */
module PromptTemplates {
  import opened Common

  /** Python's `s.replace(p, r)`: every occurrence, left to right, not overlapping; nothing rescanned. */
  function ReplaceAll(s: string, p: string, r: string): (res: string)
    decreases |s|
  {
    if p == [] then
      if s == [] then r else r + [s[0]] + ReplaceAll(s[1..], p, r)
    else if |s| < |p| then s
    else if s[..|p|] == p then r + ReplaceAll(s[|p|..], p, r)
    else [s[0]] + ReplaceAll(s[1..], p, r)
  }

  /** Text without an occurrence of a non-empty pattern comes back unchanged. */
  lemma {:induction false} ReplaceAbsent(s: string, p: string, r: string)
    requires |p| > 0 && !Occurs(s, p)
    ensures ReplaceAll(s, p, r) == s
    decreases |s|
  {
    if |s| >= |p| {
      assert !OccursAt(s, p, 0);
      forall j | 0 <= j <= |s| - 1 - |p| ensures !OccursAt(s[1..], p, j) {
        assert s[1..][j..j + |p|] == s[j + 1..j + 1 + |p|];
        assert !OccursAt(s, p, j + 1);
      }
      ReplaceAbsent(s[1..], p, r);
    }
  }

  /** Text in front that cannot start a match (it lacks the pattern's first character) is copied as is. */
  lemma {:induction false} ReplaceAfterPlain(pre: string, rest: string, p: string, r: string)
    requires |p| > 0 && p[0] !in pre
    ensures ReplaceAll(pre + rest, p, r) == pre + ReplaceAll(rest, p, r)
    decreases |pre|
  {
    if pre == [] {
      assert pre + rest == rest;
    } else {
      var t := pre[1..] + rest;
      var x := ReplaceAll(rest, p, r);
      calc {
        ReplaceAll(pre + rest, p, r);
        { assert pre + rest == [pre[0]] + t; }
        ReplaceAll([pre[0]] + t, p, r);
        { ReplaceCons(pre[0], t, p, r); }
        [pre[0]] + ReplaceAll(t, p, r);
        { assert p[0] !in pre[1..]; ReplaceAfterPlain(pre[1..], rest, p, r); }
        [pre[0]] + (pre[1..] + x);
        { assert [pre[0]] + pre[1..] == pre; }
        pre + x;
      }
    }
  }

  /** A first character that cannot start a match is copied, and the search goes on after it. */
  lemma ReplaceCons(c: char, t: string, p: string, r: string)
    requires |p| > 0 && c != p[0]
    ensures ReplaceAll([c] + t, p, r) == [c] + ReplaceAll(t, p, r)
  {
    var s := [c] + t;
    assert s[0] == c && s[1..] == t;
    if |s| >= |p| {
      assert s[..|p|][0] == c;
    } else {
      assert ReplaceAll(t, p, r) == t;
    }
  }

  /** The marker `promptTemplate` fills. */
  const InputMarker: string := "[inputText]"

  /** `promptTemplate(inputText)`. */
  function FillTemplate(template: string, inputText: string): string
  {
    ReplaceAll(template, InputMarker, inputText)
  }

  /**
   A template with one marker and no `[` elsewhere is filled as prefix, the
   input verbatim (even when it contains the marker itself), suffix.
   */
  lemma FillOneMarker(pre: string, post: string, x: string)
    requires '[' !in pre && '[' !in post
    ensures FillTemplate(pre + InputMarker + post, x) == pre + x + post
  {
    var s := InputMarker + post;
    ReplaceAfterPlain(pre, s, InputMarker, x);
    assert pre + InputMarker + post == pre + s;
    assert s[..|InputMarker|] == InputMarker;
    assert s[|InputMarker|..] == post;
    assert ReplaceAll(s, InputMarker, x) == x + ReplaceAll(post, InputMarker, x);
    assert !Occurs(post, InputMarker) by {
      forall j | 0 <= j <= |post| - |InputMarker| ensures !OccursAt(post, InputMarker, j) {
        assert post[j] in post;
      }
    }
    ReplaceAbsent(post, InputMarker, x);
  }

  /** The prompt types `loadPrompt` knows, under their lower-case names. */
  datatype PromptType = Alpaca | Pygmalion | Pygmalion2 | OpenChat35 | ZephyrBeta | OpenHermesMistral
  {
    function Name(): string
    {
      match this
      case Alpaca => "alpaca"
      case Pygmalion => "pygmalion"
      case Pygmalion2 => "pygmalion2"
      case OpenChat35 => "openchat-3.5"
      case ZephyrBeta => "zephyr-beta"
      case OpenHermesMistral => "openhermes-mistral"
    }
  }

  /** `str.lower()` on ASCII letters. */
  function Lower(s: string): (r: string)
    ensures |r| == |s|
    ensures forall i :: 0 <= i < |s| ==> r[i] == if 'A' <= s[i] <= 'Z' then (s[i] as int + 32) as char else s[i]
  {
    if s == [] then []
    else [if 'A' <= s[0] <= 'Z' then (s[0] as int + 32) as char else s[0]] + Lower(s[1..])
  }

  /** The type `type.lower()` selects, if any of the branches matches. */
  function ParsePromptType(typeName: string): (r: Option<PromptType>)
  {
    ParseLowered(Lower(typeName))
  }

  /** The `if`/`elif` chain on the lower-cased name. */
  function ParseLowered(t: string): (r: Option<PromptType>)
  {
    if t == "alpaca" then Some(Alpaca)
    else if t == "pygmalion" then Some(Pygmalion)
    else if t == "pygmalion2" then Some(Pygmalion2)
    else if t == "openchat-3.5" then Some(OpenChat35)
    else if t == "zephyr-beta" then Some(ZephyrBeta)
    else if t == "openhermes-mistral" then Some(OpenHermesMistral)
    else None
  }

  /** A type name selects a type exactly when its lower-case form is that type's name. */
  lemma ParseNames(typeName: string, k: PromptType)
    ensures ParsePromptType(typeName) == Some(k) <==> Lower(typeName) == k.Name()
  {
    ParseLoweredNames(Lower(typeName), k);
  }

  /** The names have six different lengths, so each branch of the chain matches one name only. */
  lemma ParseLoweredNames(t: string, k: PromptType)
    ensures ParseLowered(t) == Some(k) <==> t == k.Name()
  {
    if t == k.Name() {
      match k
      case Alpaca =>
      case Pygmalion => assert |t| == 9;
      case Pygmalion2 => assert |t| == 10;
      case OpenChat35 => assert |t| == 12;
      case ZephyrBeta => assert |t| == 11;
      case OpenHermesMistral => assert |t| == 18;
    }
  }

  /** Lower-case names parse back to their type, whatever the case they are written in. */
  lemma ParseName(k: PromptType)
    ensures ParsePromptType(k.Name()) == Some(k)
  {
    LowerKeepsName(k);
  }

  /** The names the file branch accepts without switching generation off. */
  const SupportedPromptTypes: seq<string> := ["alpaca", "pygmalion", "pygmalion2", "zephyr-beta", "openhermes-mistral"]

  /** Every known type except OpenChat 3.5 is on the supported list; unknown names are not. */
  lemma SupportedTypes(typeName: string)
    ensures Lower(typeName) in SupportedPromptTypes <==>
      ParsePromptType(typeName).Some? && ParsePromptType(typeName) != Some(OpenChat35)
  {
  }

  /**
   The template fields `loadPrompt` sets. A field a branch does not set keeps
   its previous value (`None`: the attribute does not exist yet).
   */
  datatype Fields = Fields(
    systemPromptPrefix: Option<string>,
    systemPromptSplitter: Option<string>,
    inputPrefix: Option<string>,
    outputPrefix: Option<string>,
    userInputPrefix: Option<string>,
    llmOutputPrefix: Option<string>,
    inputSuffix: Option<string>,
    promptTemplate: string)

  /** The fields after the type branch of `loadPrompt`; the template is reset first. */
  function SetFields(f: Fields, k: Option<PromptType>, modelName: string): (r: Fields)
  {
    var f := f.(promptTemplate := "");
    match k
    case None => f
    case Some(Alpaca) =>
      f.(systemPromptPrefix := Some(""), inputPrefix := Some("### Instruction:"), outputPrefix := Some("### Response:"))
    case Some(Pygmalion) =>
      f.(systemPromptPrefix := Some("{llmName}}'s Persona:"), systemPromptSplitter := Some("<START>"),
         inputPrefix := Some("You:"), outputPrefix := Some("[" + modelName + "]" + ":" + " "))
    case Some(Pygmalion2) =>
      f.(systemPromptPrefix := Some(""), inputPrefix := Some("<|user|>"), outputPrefix := Some("<|model|>"))
    case Some(OpenChat35) =>
      var user := "GPT4 User";
      var llm := "GPT4 Assistant";
      var suffix := "<|end_of_turn|>";
      f.(userInputPrefix := Some(user), llmOutputPrefix := Some(llm), inputSuffix := Some(suffix),
         inputPrefix := Some("<s>"), systemPromptPrefix := Some("GPT4 User"),
         systemPromptSplitter := Some("<|end_of_turn|>"),
         promptTemplate := user + ":\n" + InputMarker + suffix + "\n" + llm + ": ")
    case Some(ZephyrBeta) =>
      var user := "<|user|>";
      var llm := "<|assistant|>";
      var suffix := "</s>";
      f.(systemPromptPrefix := Some("<|system|>"), systemPromptSplitter := Some("</s>"),
         userInputPrefix := Some(user), llmOutputPrefix := Some(llm), inputSuffix := Some(suffix),
         promptTemplate := user + "\n" + InputMarker + suffix + "\n" + llm + "\n")
    case Some(OpenHermesMistral) =>
      var prefix := "<|im_start|>";
      var suffix := "<|im_end|>";
      f.(systemPromptSplitter := Some("<|im_end|>"), systemPromptPrefix := Some("<|im_start|>system"),
         inputPrefix := Some(prefix), inputSuffix := Some(suffix),
         promptTemplate := prefix + "user\n" + InputMarker + suffix + "\n" + prefix + "assistant\n")
  }

  /** What comes before the input in a filled prompt, by type. */
  function TemplatePrefix(k: PromptType): string
  {
    match k
    case OpenChat35 => "GPT4 User" + ":\n"
    case ZephyrBeta => "<|user|>" + "\n"
    case OpenHermesMistral => "<|im_start|>" + "user\n"
    case _ => ""
  }

  /** What comes after the input in a filled prompt, by type. */
  function TemplateSuffix(k: PromptType): string
  {
    match k
    case OpenChat35 => "<|end_of_turn|>" + "\n" + "GPT4 Assistant" + ": "
    case ZephyrBeta => "</s>" + "\n" + "<|assistant|>" + "\n"
    case OpenHermesMistral => "<|im_end|>" + "\n" + "<|im_start|>" + "assistant\n"
    case _ => ""
  }

  predicate HasTemplate(k: PromptType)
  {
    k.OpenChat35? || k.ZephyrBeta? || k.OpenHermesMistral?
  }

  /** The three chat types' templates: one marker between the type's turn markers. */
  lemma ChatTemplate(f: Fields, k: PromptType, modelName: string)
    requires HasTemplate(k)
    ensures SetFields(f, Some(k), modelName).promptTemplate == TemplatePrefix(k) + InputMarker + TemplateSuffix(k)
  {
    match k
    case OpenChat35 => OpenChatTemplate(f, modelName);
    case ZephyrBeta => ZephyrTemplate(f, modelName);
    case OpenHermesMistral => OpenHermesTemplate(f, modelName);
  }

  lemma OpenChatTemplate(f: Fields, modelName: string)
    ensures SetFields(f, Some(OpenChat35), modelName).promptTemplate
         == TemplatePrefix(OpenChat35) + InputMarker + TemplateSuffix(OpenChat35)
  {
    Regroup("GPT4 User", ":\n", InputMarker, "<|end_of_turn|>", "\n", "GPT4 Assistant", ": ");
  }

  lemma ZephyrTemplate(f: Fields, modelName: string)
    ensures SetFields(f, Some(ZephyrBeta), modelName).promptTemplate
         == TemplatePrefix(ZephyrBeta) + InputMarker + TemplateSuffix(ZephyrBeta)
  {
    Regroup("<|user|>", "\n", InputMarker, "</s>", "\n", "<|assistant|>", "\n");
  }

  lemma OpenHermesTemplate(f: Fields, modelName: string)
    ensures SetFields(f, Some(OpenHermesMistral), modelName).promptTemplate
         == TemplatePrefix(OpenHermesMistral) + InputMarker + TemplateSuffix(OpenHermesMistral)
  {
    Regroup("<|im_start|>", "user\n", InputMarker, "<|im_end|>", "\n", "<|im_start|>", "assistant\n");
  }

  /** The source's left-to-right concatenation, regrouped around the marker. */
  lemma Regroup(a: string, b: string, m: string, c: string, d: string, e: string, g: string)
    ensures a + b + m + c + d + e + g == (a + b) + m + (c + d + e + g)
  {
  }

  /**
   After `loadPrompt` with a chat type, `promptTemplate(x)` wraps the input
   in the type's turn markers; with any other type, or an unknown one, the
   template is empty and so is every filled prompt.
   */
  lemma TemplateWraps(f: Fields, k: Option<PromptType>, modelName: string, x: string)
    ensures k.Some? && HasTemplate(k.value) ==>
      FillTemplate(SetFields(f, k, modelName).promptTemplate, x) == TemplatePrefix(k.value) + x + TemplateSuffix(k.value)
    ensures k.None? || !HasTemplate(k.value) ==> FillTemplate(SetFields(f, k, modelName).promptTemplate, x) == ""
  {
    if k.Some? && HasTemplate(k.value) {
      ChatTemplate(f, k.value, modelName);
      TemplateMarkersPlain(k.value);
      FillOneMarker(TemplatePrefix(k.value), TemplateSuffix(k.value), x);
    }
  }

  lemma TemplateMarkersPlain(k: PromptType)
    ensures '[' !in TemplatePrefix(k) && '[' !in TemplateSuffix(k)
  {
    match k
    case OpenChat35 =>
      Plain("GPT4 User:\n");
      Plain("<|end_of_turn|>\nGPT4 Assistant: ");
    case ZephyrBeta =>
      Plain("<|user|>\n");
      Plain("</s>\n<|assistant|>\n");
    case OpenHermesMistral =>
      Plain("<|im_start|>user\n");
      Plain("<|im_end|>\n<|im_start|>assistant\n");
    case _ =>
  }

  /** A text without an opening bracket. */
  lemma Plain(s: string)
    requires forall i :: 0 <= i < |s| ==> s[i] != '['
    ensures '[' !in s
  {
  }

  /** The fields a type branch does not mention survive `loadPrompt`; an unknown type only clears the template. */
  lemma UnknownTypeKeepsFields(f: Fields, typeName: string, modelName: string)
    requires ParsePromptType(typeName).None?
    ensures SetFields(f, ParsePromptType(typeName), modelName) == f.(promptTemplate := "")
  {
  }

  /** Where `loadPrompt` takes the prompt from: a file's contents, an inline string, or nowhere. */
  datatype PromptSource = FromFile(contents: string) | Inline(text: string) | NoPrompt

  /** The part of the model's state `loadPrompt` writes. */
  datatype Loaded = Loaded(prompt: string, go: bool, fields: Fields)

  /**
   `loadPrompt(path, prompt, type)`: the prompt from the file, with a leading
   space and `{llmName}` replaced by the model name, or the inline prompt,
   or the previous one; an unsupported type in the file branch switches
   generation off; then the type's fields.
   */
  function LoadPrompt(st: Loaded, src: PromptSource, typeName: string, modelName: string): (r: Loaded)
    ensures src.FromFile? && Lower(typeName) !in SupportedPromptTypes ==> !r.go
  {
    var (prompt, go) :=
      match src
      case FromFile(contents) =>
        (" " + ReplaceAll(contents, "{llmName}", modelName), if Lower(typeName) !in SupportedPromptTypes then false else st.go)
      case Inline(text) => (text, st.go)
      case NoPrompt => (st.prompt, st.go);
    Loaded(prompt, go, SetFields(st.fields, ParsePromptType(typeName), modelName))
  }

  /**
   What a load does beyond the prompt text: the fields depend on the type
   alone, not on where the prompt came from; generation is never switched
   back on, and is switched off only by a file prompt of an unsupported
   type; loading the same thing twice is loading it once.
   */
  lemma LoadPromptEffects(st: Loaded, src: PromptSource, other: PromptSource, typeName: string, modelName: string)
    ensures LoadPrompt(st, src, typeName, modelName).fields == LoadPrompt(st, other, typeName, modelName).fields
    ensures LoadPrompt(st, src, typeName, modelName).go ==> st.go
    ensures !(src.FromFile? && Lower(typeName) !in SupportedPromptTypes) ==>
      LoadPrompt(st, src, typeName, modelName).go == st.go
  {
  }

  /** Loading the same prompt and type twice is loading them once. */
  lemma LoadPromptTwice(st: Loaded, src: PromptSource, typeName: string, modelName: string)
    ensures var r := LoadPrompt(st, src, typeName, modelName);
      LoadPrompt(r, src, typeName, modelName) == r
  {
    var r := LoadPrompt(st, src, typeName, modelName);
    SetFieldsTwice(st.fields, ParsePromptType(typeName), modelName);
    assert LoadPrompt(r, src, typeName, modelName).fields == r.fields;
  }

  /** Every type branch sets its fields to constants, so running it again changes nothing. */
  lemma SetFieldsTwice(f: Fields, k: Option<PromptType>, modelName: string)
    ensures SetFields(SetFields(f, k, modelName), k, modelName) == SetFields(f, k, modelName)
  {
    match k
    case None =>
    case Some(t) =>
  }

  /**
   Loading an OpenChat 3.5 prompt from a file switches generation off, since
   the name is missing from the supported list, yet installs its template.
   */
  lemma OpenChatFromFile(st: Loaded, contents: string, modelName: string)
    ensures var r := LoadPrompt(st, FromFile(contents), OpenChat35.Name(), modelName);
      !r.go && r.fields.promptTemplate == TemplatePrefix(OpenChat35) + InputMarker + TemplateSuffix(OpenChat35)
  {
    var r := LoadPrompt(st, FromFile(contents), OpenChat35.Name(), modelName);
    assert !r.go by {
      OpenChatNotListed();
    }
    assert r.fields.promptTemplate == TemplatePrefix(OpenChat35) + InputMarker + TemplateSuffix(OpenChat35) by {
      ParseName(OpenChat35);
      ChatTemplate(st.fields, OpenChat35, modelName);
    }
  }

  lemma OpenChatNotListed()
    ensures Lower(OpenChat35.Name()) !in SupportedPromptTypes
  {
    LowerKeepsName(OpenChat35);
    NoSupportedNameOfLength(OpenChat35.Name());
  }

  /** No supported name has twelve characters, the length of `"openchat-3.5"`. */
  lemma NoSupportedNameOfLength(s: string)
    requires |s| == 12
    ensures s !in SupportedPromptTypes
  {
    assert forall i :: 0 <= i < |SupportedPromptTypes| ==> |SupportedPromptTypes[i]| != 12;
  }

  /** Type names are already lower case. */
  lemma LowerKeepsName(k: PromptType)
    ensures Lower(k.Name()) == k.Name()
  {
    LowerWithoutCapitals(k.Name());
  }

  /** Text without capital letters is its own lower-case form. */
  lemma LowerWithoutCapitals(s: string)
    requires forall i :: 0 <= i < |s| ==> !('A' <= s[i] <= 'Z')
    ensures Lower(s) == s
  {
    assert forall i :: 0 <= i < |s| ==> Lower(s)[i] == s[i];
  }

  /** A file prompt that never mentions `{llmName}` is kept verbatim after the leading space. */
  lemma FilePromptWithoutName(st: Loaded, contents: string, typeName: string, modelName: string)
    requires !Occurs(contents, "{llmName}")
    ensures LoadPrompt(st, FromFile(contents), typeName, modelName).prompt == " " + contents
  {
    ReplaceAbsent(contents, "{llmName}", modelName);
  }
}
