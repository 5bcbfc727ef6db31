# Text uniqualizer of the unicalizator bot

The bot answers a text message with a "uniqualized" copy of the text. The
function `transform_text` holds a fixed table of ten entries. It maps the
letters `A`–`E` and `a`–`e` to stylised mathematical-script code points
(U+1D49C–U+1D4A0 and U+1D4B6–U+1D4BA). It then rebuilds the text one
character at a time. A character that is a key of the table is replaced by
the key's value. Any other character is copied unchanged, because the lookup
is `mapping.get(char, char)`.

The model has three modules:

- `Substitution` (substitution.dfy) is a substitution driven by any table
  `map<char, char>`. `Substitute` is recursive and works left to right, as the
  join does. Its laws are proved once for every table. `Pointwise` is an
  independent definition that builds the result position by position, and
  `SubstituteIsPointwise` proves the two agree.
- `TextTransform` (text_transform.dfy) holds the bot's table `Mapping` and
  `TransformText`. It also holds the inverse table `Unmapping` and `Restore`,
  which exist only to state that the table is injective on its keys. Finally
  it holds the corrected table from the finding below.
- `ScriptLetters` (script_letters.dfy) is a reference for the finding. It gives
  the assigned Unicode script letter of each ASCII letter, and the slots of the
  mathematical script range that Unicode leaves reserved.

A Dafny `char` is a Unicode scalar value, so each table value is one
character. Python also counts it as one code point. This is why the output
has the same length as the input.

## Model

| member | source | states |
|---|---|---|
| `Substitution.SubstituteIsPointwise` | app.py:25 | The join has exactly one output character per input character. Position i holds the table value when the input character is a key, and the input character itself otherwise. The recursive definition equals the position-by-position one. |
| `Substitution.SubstituteConcat` | app.py:25 | The substitution maps "" to "" and distributes over concatenation, for any table. |
| `Substitution.SubstituteIsKeyFree` | app.py:25 | If no table value is a key, the result contains no key. |
| `Substitution.SubstituteFixesKeyFree` | app.py:25 | A string with no key in it is returned unchanged. |
| `Substitution.SubstituteIdempotent` | app.py:25 | If no table value is a key, applying the substitution twice gives the same result as applying it once. |
| `Substitution.SubstituteRoundTrip` | app.py:25 | A table that sends every value back to its key undoes the substitution, on input that holds none of that table's keys. |
| `TextTransform.MappingKeys` | app.py:20-22 | The table's keys are exactly A, B, C, D, E, a, b, c, d, e. |
| `TextTransform.MappingValuesAreNotKeys` | app.py:20-22 | No value of the table is one of its keys. |
| `TextTransform.MappingInjective` | app.py:21-22 | The ten table values are pairwise distinct. |
| `TextTransform.UnmappingInvertsMapping` | app.py:21-22 | The inverse table sends each of the ten values back to its key, and its keys are exactly the table's values. |
| `TextTransform.TransformTextLength` | app.py:19-25 | The output has exactly as many characters as the input. |
| `TextTransform.TransformTextReplacesKeys` | app.py:20-25 | A table key at position i becomes its table value at position i. |
| `TextTransform.TransformTextPassesThrough` | app.py:25 | A character that is not a key stays unchanged at the same position. This includes digits, punctuation, other letters and non-ASCII characters. |
| `TextTransform.TransformTextChangesExactlyKeys` | app.py:20-25 | A position changes if and only if it holds one of the ten keys. |
| `TextTransform.TransformTextConcat` | app.py:25 | The transform maps "" to "", and the transform of s + t equals the transform of s followed by the transform of t. |
| `TextTransform.TransformTextHasNoKeys` | app.py:20-25 | No character of the output is one of the ten keys. |
| `TextTransform.TransformTextIdempotent` | app.py:20-25 | Transforming an already transformed text changes nothing. |
| `TextTransform.TransformTextRestorable` | app.py:20-25 | If the text contains none of the ten stylised characters, the inverse table recovers it exactly from its transform. |
| `TextTransform.TransformTextNotInjective` | app.py:25 | On arbitrary text the transform is not injective: "A" and the stylised character U+1D49C transform to the same output. |
| `TextTransform.MappingHitsReservedSlots` | app.py:21-22 | As written, the table sends exactly B, E and e to reserved code points. The other seven values are the script letters of their keys. The transform of "BEe" consists only of reserved code points. |
| `TextTransform.IntendedMappingKeys` | app.py:20-22 | The corrected table has the same ten keys as the bot's table. |
| `TextTransform.IntendedMappingIsScript` | app.py:21-22 | The corrected table sends each key to its assigned script letter, so none of its values is a reserved code point. |
| `TextTransform.IntendedMappingValuesAreNotKeys` | app.py:21-22 | No value of the corrected table is one of its keys. |
| `TextTransform.IntendedMappingInjective` | app.py:21-22 | The values of the corrected table are pairwise distinct. |
| `TextTransform.TransformTextIntendedIsScript` | app.py:19-25 | The corrected transform preserves length and writes the script letter of every key. It adds no reserved code point. It agrees with the bot's transform everywhere except at B, E and e. It is idempotent. |

## Findings

| source | as written | input that shows it | evidently intended | confidence | as-written member | corrected member |
|---|---|---|---|---|---|---|
| app.py:21-22 | `'B'`, `'E'` and `'e'` map to U+1D49D, U+1D4A0 and U+1D4BA. These are reserved, unassigned slots of the Mathematical Alphanumeric Symbols block. Unicode encodes those three script letters in the Letterlike Symbols block instead. | `transform_text("BEe")` returns three unassigned code points, which are usually shown as missing-glyph boxes. | SCRIPT CAPITAL B U+212C, SCRIPT CAPITAL E U+2130 and SCRIPT SMALL E U+212F, matching the other seven entries, which are the script letters of their keys. | not executed; high for the Unicode assignment, medium for the intent | `TextTransform.MappingHitsReservedSlots` | `TextTransform.TransformTextIntendedIsScript` |

`TransformText` is still the bot's transform as written. Every `Substitution`
law is proved for both tables. The corrected table `IntendedMapping` gets its
own versions of the table laws (`IntendedMappingValuesAreNotKeys`,
`IntendedMappingInjective`) and of idempotence.

## Left out

- `text_handler` (app.py:28-31): only reads the message, calls `transform_text` and sends a reply through Telegram. Its only logic is the call that is modelled here.
- `process_image` and `photo_handler` (app.py:34-53): a Gaussian blur with a floating-point radius, a pixel copy and a JPEG encode, all inside PIL, plus Telegram download and reply. These are foreign library calls and floating point.
- `process_video` and `video_handler` (app.py:56-84): a moviepy speed change by the factor 0.8 and an encode through an external libx264/aac process, plus temporary-file handling and Telegram I/O. These are foreign calls, a subprocess and filesystem work.
- `start` and `main` (app.py:87-111): a greeting reply, handler registration, the check for the environment token, and the polling loop. This is framework wiring and configuration.
- Logging setup (app.py:13-16): process-wide configuration with no logic.
- No concrete sentence such as "Hello, World! 123" is proved as a separate example. Evaluating the recursive definition on a 17-character literal is too costly for the verifier. `TransformTextReplacesKeys` and `TransformTextPassesThrough` cover that behaviour for every input.
