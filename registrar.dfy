/**
 * The set-up half of the plugin (lib/lfm/index.js, lines 79-108): it adds
 * the GFM syntax extensions to the three extension lists kept in the
 * processor's data bag, creating a list that is missing.
 */
module Registrar {
  import opened Wrappers

  /** A configuration value, as JavaScript would hold it. */
  datatype Value = Undefined | Null | Bool(b: bool) | Number(n: int) | Str(s: string)

  /** A configuration object: its own enumerable properties. */
  type Options = map<string, Value>

  /**
   * An extension object. The GFM extensions come from other packages and are
   * opaque here; the strikethrough tokenizer records the options it was built
   * with. `Foreign` stands for anything another plugin registered.
   */
  datatype Extension =
    | GfmFootnote | GfmStrikethrough(options: Options) | GfmTable | GfmAutolinkLiteral
    | GfmFootnoteFromMarkdown | GfmStrikethroughFromMarkdown | GfmTableFromMarkdown | GfmAutolinkLiteralFromMarkdown
    | GfmFootnoteToMarkdown | GfmTableToMarkdown | GfmStrikethroughToMarkdown | GfmAutolinkLiteralToMarkdown
    | Foreign(name: string)

  /** `options || emptyOptions`: a missing (`null` or `undefined`) configuration reads as `{}`. */
  function Settings(options: Option<Options>): (settings: Options)
    ensures options.None? ==> settings == map[]
    ensures options.Some? ==> settings == options.value
  {
    options.GetOr(map[])
  }

  /**
   * `{ singleTilde: false, ...settings }`: the caller's properties are spread
   * after the default, so `false` is used only when the caller gave no
   * `singleTilde` at all, and every other property is passed on as given.
   */
  function StrikethroughOptions(settings: Options): (r: Options)
    ensures r.Keys == settings.Keys + {"singleTilde"}
    ensures "singleTilde" !in settings ==> r["singleTilde"] == Bool(false)
    ensures forall k :: k in settings ==> r[k] == settings[k]
  {
    map["singleTilde" := Bool(false)] + settings
  }

  /** A caller's `singleTilde: true` wins over the default. */
  lemma SingleTildeOverridable()
    ensures StrikethroughOptions(Settings(Some(map["singleTilde" := Bool(true)])))["singleTilde"] == Bool(true)
    ensures StrikethroughOptions(Settings(None))["singleTilde"] == Bool(false)
  {
  }

  /** The tokenizer extensions added by one call, in order. */
  function TokenizerBatch(settings: Options): seq<Extension> {
    [GfmFootnote, GfmStrikethrough(StrikethroughOptions(settings)), GfmTable, GfmAutolinkLiteral]
  }

  /** The from-markdown extensions added by one call, in order. */
  const FromMarkdownBatch: seq<Extension> :=
    [GfmFootnoteFromMarkdown, GfmStrikethroughFromMarkdown, GfmTableFromMarkdown, GfmAutolinkLiteralFromMarkdown]

  /** The to-markdown extensions added by one call, in order: table comes before strikethrough here. */
  const ToMarkdownBatch: seq<Extension> :=
    [GfmFootnoteToMarkdown, GfmTableToMarkdown, GfmStrikethroughToMarkdown, GfmAutolinkLiteralToMarkdown]

  /** The processor's data bag: each extension list may be missing. */
  class ProcessorData {
    var micromarkExtensions: Option<seq<Extension>>
    var fromMarkdownExtensions: Option<seq<Extension>>
    var toMarkdownExtensions: Option<seq<Extension>>

    /** A fresh processor, on which no plugin has registered anything. */
    constructor ()
      ensures micromarkExtensions == None
      ensures fromMarkdownExtensions == None
      ensures toMarkdownExtensions == None
    {
      micromarkExtensions := None;
      fromMarkdownExtensions := None;
      toMarkdownExtensions := None;
    }

    /**
     * Running the plugin on this processor: each list is created empty if
     * missing, then gets exactly four extensions pushed onto its end.
     */
    method UseLuoguFlavor(options: Option<Options>)
      modifies this
      ensures micromarkExtensions == Some(old(micromarkExtensions).GetOr([]) + TokenizerBatch(Settings(options)))
      ensures fromMarkdownExtensions == Some(old(fromMarkdownExtensions).GetOr([]) + FromMarkdownBatch)
      ensures toMarkdownExtensions == Some(old(toMarkdownExtensions).GetOr([]) + ToMarkdownBatch)
    {
      var settings := Settings(options);
      if micromarkExtensions.None? {
        micromarkExtensions := Some([]);
      }
      if fromMarkdownExtensions.None? {
        fromMarkdownExtensions := Some([]);
      }
      if toMarkdownExtensions.None? {
        toMarkdownExtensions := Some([]);
      }
      micromarkExtensions := Some(micromarkExtensions.value +
        [GfmFootnote, GfmStrikethrough(StrikethroughOptions(settings)), GfmTable, GfmAutolinkLiteral]);
      fromMarkdownExtensions := Some(fromMarkdownExtensions.value +
        [GfmFootnoteFromMarkdown, GfmStrikethroughFromMarkdown, GfmTableFromMarkdown, GfmAutolinkLiteralFromMarkdown]);
      toMarkdownExtensions := Some(toMarkdownExtensions.value +
        [GfmFootnoteToMarkdown, GfmTableToMarkdown, GfmStrikethroughToMarkdown, GfmAutolinkLiteralToMarkdown]);
    }
  }

  /**
   * Using the plugin twice on a processor that already holds `earlier` in
   * every list: the earlier entries stay in front, in order, and each list
   * grows by eight, the second batch repeating the first.
   */
  method UseTwice(earlier: seq<Extension>, options: Option<Options>)
    returns (tokenizers: seq<Extension>, fromMarkdown: seq<Extension>, toMarkdown: seq<Extension>)
    ensures |tokenizers| == |fromMarkdown| == |toMarkdown| == |earlier| + 8
    ensures tokenizers[..|earlier|] == fromMarkdown[..|earlier|] == toMarkdown[..|earlier|] == earlier
    ensures tokenizers[|earlier|..] == TokenizerBatch(Settings(options)) + TokenizerBatch(Settings(options))
    ensures fromMarkdown[|earlier|..] == FromMarkdownBatch + FromMarkdownBatch
    ensures toMarkdown[|earlier|..] == ToMarkdownBatch + ToMarkdownBatch
  {
    var data := new ProcessorData();
    data.micromarkExtensions := Some(earlier);
    data.fromMarkdownExtensions := Some(earlier);
    data.toMarkdownExtensions := Some(earlier);
    data.UseLuoguFlavor(options);
    data.UseLuoguFlavor(options);
    tokenizers := data.micromarkExtensions.value;
    fromMarkdown := data.fromMarkdownExtensions.value;
    toMarkdown := data.toMarkdownExtensions.value;
  }
}
