# remark-luogu-flavor, modelled in Dafny

remark-luogu-flavor is a plugin for the remark/unified markdown pipeline. It
does two things when a processor uses it:

1. **Registration.** It adds the GFM syntax extensions (footnotes,
   strikethrough, tables, autolink literals) to the three extension lists
   kept in the processor's data bag. These are `micromarkExtensions` for the
   tokenizer, `fromMarkdownExtensions` for building the tree and
   `toMarkdownExtensions` for serialising it. A missing list is created
   first.
2. **Transform.** It returns a tree transform. The transform visits every
   `paragraph` and rewrites its `children` array in place:
   - a `link` right after a `text` that ends in `@`, whose URL is
     `/user/<digits>` or `/space/show?uid=<digits>`, becomes a `userMention`;
   - an `image` whose URL starts with `bilibili:` becomes a `bilibiliVideo`.

The modules are:

- `Wrappers` (`wrappers.dfy`): `Option`.
- `Patterns` (`patterns.dfy`): ASCII digits and `parseInt`'s decimal value.
  It also holds a reference semantics `Matches` for the anchored regular
  expressions `^<literal>(\d+)$`.
- `Classify` (`classify.dfy`): the pure classifiers. `MentionUid` is
  `mentionReg.exec(url) ?? legacyMentionReg.exec(url)` followed by
  `parseInt`. It is proved against the regex semantics. `VideoId` is the
  prefix strip, done with JavaScript's first-occurrence `replace`, plus the
  `av` normalisation.
- `Mdast` (`mdast.dfy`): the node datatype, a closed union that includes the
  two new node kinds, and a size measure.
- `Rewrite` (`rewrite.dfy`): the paragraph rewrite and the tree visit.
  `RewriteParagraph` is a method over `array<Node>` that follows the
  source's `forEach`. It reads the already-updated `childNode[index - 1]`,
  as the source does. It is proved equal to `RewriteChildren`, a map that
  looks back at the *original* previous sibling. The two agree because the
  rewrite never creates or changes a text node. `TransformTree` is the
  pre-order visit, specified by the function `Visit`. The file also proves
  idempotence: `Visit(Visit(n)) == Visit(n)`.
- `Registrar` (`registrar.dfy`): the data bag as a class whose three
  optional list fields the plugin extends.

The strikethrough tokenizer is built with `{ singleTilde: false, ...settings }`
(lib/lfm/index.js:91). The caller's settings are spread after the default, so
a caller's own `singleTilde` wins and `false` is only a default; see
`StrikethroughOptions` and `SingleTildeOverridable`.

## Model

| member | source | states |
|---|---|---|
| `Patterns.DecimalRoundTrip` | lib/lfm/index.js:138 | `parseInt` of the canonical decimal spelling of any n is n, so every user id is representable |
| `Patterns.DecimalValue` | lib/lfm/index.js:138 | `parseInt(match[1])` on a digit string; characterised by `DecimalRoundTrip` and `LeadingZeroIgnored` |
| `Patterns.LeadingZeroIgnored` | lib/lfm/index.js:138 | a leading zero in the captured digits does not change the uid |
| `Patterns.AnchoredDigitsMatches` | lib/lfm/index.js:62-63 | `^<lit>(\d+)$` matches exactly the strings that are `lit` followed by one or more ASCII digits |
| `Classify.CaptureDigits` | lib/lfm/index.js:62-63 | exec of an anchored mention pattern gives a capture exactly when the regex matches; the capture is non-empty and all digits, and the URL is the literal followed by it |
| `Classify.MentionUid` | lib/lfm/index.js:131-138 | a uid is found exactly when the primary or the legacy regex matches; when the primary matches, its digits give the uid; the legacy digits are used only when the primary fails |
| `Classify.MentionUidOfUserPath` | lib/lfm/index.js:62 | `/user/<n>` yields uid n for every n |
| `Classify.MentionUidOfLegacyPath` | lib/lfm/index.js:63 | `/space/show?uid=<n>` is rejected by the primary pattern and yields uid n through the legacy one |
| `Classify.MentionRejectsTrailingNonDigit` | lib/lfm/index.js:62-63 | a URL ending in a non-digit matches neither pattern |
| `Classify.MentionRejectsLeadingChar` | lib/lfm/index.js:62-63 | a URL not starting with `/` (an absolute URL, extra leading text) matches neither pattern |
| `Classify.MentionRejectsBarePrefix` | lib/lfm/index.js:62-63 | a prefix with no digits after it matches neither pattern |
| `Classify.EndsWithAt` | lib/lfm/index.js:129 | `lastNode.value.endsWith("@")`: the value's last character is `@` |
| `Classify.RemoveFirst` | lib/lfm/index.js:143 | `replace(pattern, "")` either keeps the string or shortens it by the pattern's length |
| `Classify.RemoveFirstAtFirstOccurrence` | lib/lfm/index.js:143 | when the pattern first occurs at i, `replace` gives the text before i followed by the text after that occurrence |
| `Classify.RemoveFirstWithoutOccurrence` | lib/lfm/index.js:143 | when the pattern does not occur, `replace` keeps the string |
| `Classify.RemoveFirstOfPrefix` | lib/lfm/index.js:142-143 | on a URL that starts with the scheme, `replace` strips exactly that prefix |
| `Classify.VideoId` | lib/lfm/index.js:143-144 | the id is the URL minus `bilibili:`, with `av` prepended exactly when the remainder starts with an ASCII digit; so an id never starts with a digit |
| `Classify.VideoIdKeepsInnerScheme` | lib/lfm/index.js:143 | only the first `bilibili:` is removed |
| `Classify.VideoIdExamples` | lib/lfm/index.js:142-144 | `bilibili:123456` gives `av123456`, `bilibili:BV1cf4y1W771` gives `BV1cf4y1W771`, `bilibili:` gives the empty id |
| `Rewrite.MentionApplies` | lib/lfm/index.js:125-133 | the mention condition; `RewriteChangesOnlyMatches` and `RewriteChildrenAt` state its effect |
| `Rewrite.VideoApplies` | lib/lfm/index.js:142 | the video condition; `RewriteChangesOnlyMatches` and `RewriteChildrenAt` state its effect |
| `Rewrite.RewriteAt` | lib/lfm/index.js:124-150 | one `forEach` callback, looking back at the original previous sibling; `LookBackAgrees` and `RewriteChildrenAt` state what it gives |
| `Rewrite.RewriteChild` | lib/lfm/index.js:125-150 | one step never creates or consumes a text node and keeps text unchanged; otherwise it keeps the child, turns a link into a mention with the link's children, or turns an image into a video |
| `Rewrite.RewriteChildren` | lib/lfm/index.js:123-152 | the rewrite keeps the number of children |
| `Rewrite.LookBackAgrees` | lib/lfm/index.js:124-129 | looking back at the already rewritten previous sibling decides the same as looking at the original |
| `Rewrite.RewriteParagraph` | lib/lfm/index.js:122-152 | the in-place `forEach` leaves the array equal to the look-back map of its original contents |
| `Rewrite.RewriteChildrenAt` | lib/lfm/index.js:125-150 | at each index: the mention rule with the primary and then the legacy capture; the link is kept at index 0, after a non-text, after text not ending in `@`, or when neither regex matches; a `bilibili:` image becomes a video; other images and all other kinds are kept |
| `Rewrite.RewriteChangesOnlyMatches` | lib/lfm/index.js:140-150 | same length, and an element changes only where the mention or video rule fired |
| `Rewrite.VisitKeepsKind` | lib/lfm/index.js:121 | the visit keeps each node's kind (all eight), keeps link URLs, and leaves text and images as they are |
| `Rewrite.OnlyParagraphsRewritten` | lib/lfm/index.js:121 | children of containers other than paragraphs are only visited, never rewritten themselves |
| `Rewrite.RewrittenChildrenStable` | lib/lfm/index.js:126-142 | after one pass no rule fires again on a paragraph's children |
| `Rewrite.VisitSettles` | lib/lfm/index.js:121-151 | after the transform no rule fires anywhere in the tree, nested paragraphs included |
| `Rewrite.SettledFixed` | lib/lfm/index.js:121-151 | the transform leaves a tree where no rule fires unchanged |
| `Rewrite.VisitIdempotent` | lib/lfm/index.js:120-154 | running the transform twice equals running it once |
| `Rewrite.Visit` | lib/lfm/index.js:121 | the `visit(tree, "paragraph", ...)` pass as a function: it neither adds nor removes nodes (same size); further characterised by `OnlyParagraphsRewritten`, `VisitSettles`, `SettledFixed` and `VisitIdempotent` |
| `Rewrite.TransformTree` | lib/lfm/index.js:120-154 | the transform (copy children, rewrite in place, descend) yields `Visit(tree)` |
| `Rewrite.TransformChildren` | lib/lfm/index.js:121 | the visit descends into every child, in order |
| `Rewrite.UserMentionScenario` | lib/lfm/index.js:125-140 | `[Text("Hi @"), Link("/user/42", [bob])]` becomes `[Text("Hi @"), UserMention(42, [bob])]` |
| `Rewrite.LegacyMentionScenario` | lib/lfm/index.js:131-140 | a link to `/space/show?uid=7` after `cc@` becomes a mention of uid 7 |
| `Rewrite.VideoScenario` | lib/lfm/index.js:142-150 | numeric and `BV` ids become videos (`av123456`, `BV1cf4y1W771`); an ordinary image is kept |
| `Registrar.Settings` | lib/lfm/index.js:79 | a missing configuration reads as the empty object |
| `Registrar.StrikethroughOptions` | lib/lfm/index.js:91 | `singleTilde` is always present, `false` unless the caller set it; every caller property is passed on unchanged |
| `Registrar.SingleTildeOverridable` | lib/lfm/index.js:91 | a caller's `singleTilde: true` reaches the tokenizer; with no options it is `false` |
| `Registrar.TokenizerBatch` | lib/lfm/index.js:89-94 | the four tokenizer extensions pushed by one use, strikethrough built with `StrikethroughOptions`; `UseLuoguFlavor` and `UseTwice` state where they go |
| `Registrar.FromMarkdownBatch` | lib/lfm/index.js:96-101 | the four from-markdown extensions pushed by one use, in order |
| `Registrar.ToMarkdownBatch` | lib/lfm/index.js:103-108 | the four to-markdown extensions pushed by one use, table before strikethrough |
| `Registrar.ProcessorData.UseLuoguFlavor` | lib/lfm/index.js:80-108 | each list is created empty if missing, keeps its earlier contents, and gets exactly four entries appended, in the order footnote, strikethrough, table, autolink (to-markdown: footnote, table, strikethrough, autolink) |
| `Registrar.UseTwice` | lib/lfm/index.js:82-108 | two uses keep earlier entries in front and append each list's four-entry batch twice |

## Left out

- The GFM extension factories (`gfmFootnote`, `gfmTableFromMarkdown`, ...) belong to other packages. They are opaque tokens here; only the strikethrough tokenizer records its options.
- `unist-util-visit` is replaced by the recursive pre-order visit `Visit` and `TransformTree`. Its skip/exit control values are not used by the plugin and are not modelled.
- The tree is a value. The transform returns the rewritten tree instead of mutating node objects. Only a paragraph's `children` array is updated in place, as an `array<Node>`. Sharing between nodes is not modelled: a mention's `children` equal the link's children by value, where the source reuses the same array.
- The extension lists are values too: `push` onto a possibly pre-existing array is modelled as assigning the field a longer sequence, so sharing of those arrays with other holders is not modelled.
- Classify.MentionUid: the uid is the exact value of the digits. `parseInt` loses precision above 2^53, which is a floating-point limit and is not modelled.
- Node fields the rewrite never reads are not modelled: `title`, `alt`, `position`, `data`. Neither are kinds other than those listed; they are all `Other`.
- A `url` or `value` that is not a string cannot occur in the model, because the node datatype types them.
- The transform's `file` argument and the processor's `this` binding do not affect behaviour. Neither does the `Options` typedef's `someField`. Every caller property is passed on to the strikethrough tokenizer unchanged.
- lib/index.d.ts only declares the two node kinds, which the `Node` datatype mirrors. example.js only does file I/O and pipeline wiring, so it is not part of this model.
