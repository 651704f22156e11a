# sqlite-db: the streaming JSON responder and the logger

This project models two modules of the sqlite-db repository and proves what they promise.

- **`Responder`** (`responder.js`) is a streaming JSON writer over an HTTP response. Callers use it in one of two shapes:
  - they write rows only, and get `[r1,r2,...]`;
  - or they add named sections, each holding one value or an array of rows, and get `{"a": v,"b": [r1,r2]}`.

  Six flags drive what it writes. It throws when the calls are mixed in an illegal way, and it ignores every call after `end()`.
- **`logger`** (`logger.js`) composes one coloured log line from an address or tag, a level and messages. With `LOG_IP_HIDDEN` set, it hides client addresses behind `cyrb53`, a 53-bit hash built from 32-bit multiply, xor and shift steps. With `LOG_NO_ENCODE` set, `cyrb53` is replaced by the identity.

Files:

- `wrappers.dfy`: `Option`, which stands for a value or `undefined`.
- `strings.dfy`: the string operations the source relies on:
  - `Array.prototype.join`, with its inverse for one-character separators;
  - the decimal text of a safe integer;
  - `String.prototype.trim`.
- `response_text.dfy`: the documents a responder can write and their complete text (`Render`). It also holds the fragments a responder writes for a document (`Frags`, `ClosingFrags`), with the proof that the fragments spell the rendered document.
- `responder.dfy`: the class `Responder` with the source's six flags. It keeps:
  - the fragments written, as `output: seq<string>`;
  - whether the response stream was ended (`closed`);
  - a counter of the drain waits created;
  - a ghost `doc`, the document written so far.

  The invariant `Valid()` ties all of these together. The file also has two clients that drive the class through each shape and prove the resulting text.
- `utf16.dfy`: a string read as UTF-16 code units, the way `charCodeAt` reads it.
- `cyrb53.dfy`: `cyrb53` on `bv32` words (`Math.imul` is `bv32` multiplication, `>>>` is `>>`). It has three parts:
  - a loop method proved against a fold;
  - a head-first reference fold: the first code unit, then the rest;
  - the choice between the hash and the identity made when the module loads.
- `logger.dfy`: the line `logger` prints, as a function of the environment variables and of the outside world.

The outside world enters as parameters:

- `JSON.stringify` is a function `json: V -> string` fixed when the responder is built.
- What the stream's `write` answered for a row is the `accepted` argument of `Write`.
- The stream's `drain` event is the method `Drain`.
- In the logger, `net.isIP`, the chalk colour functions and `new Date().toISOString()` are parameters. What `console.log` would print is the result.

The two errors `responder.js` throws itself (responder.js:40 and :74) are result values that carry the source's exact message. The state is left unchanged by them, as in the source, which throws them before it changes anything. The logger's unknown colour key is the outcome `NoColour(key)`, without the error's text.

## Model

| member | source | states |
|---|---|---|
| Responder.SectionOf | responder.js:52-60 | The section `addSection` starts: a value section when the value is defined, otherwise a row section with no rows yet. |
| Responder.Responder.constructor | responder.js:28-36 | A new responder has written nothing, has every flag false, has no drain wait and holds the empty document. `inSection`, which the source leaves undefined, reads as false. |
| Responder.Responder.AddSection | responder.js:37-63 | If the responder has ended, it returns and nothing changes. Otherwise, in array mode it throws "Cannot add section to an array" and nothing changes. Otherwise it writes three things: `]` exactly when a row section was open, then `{"name": ` before the first section or `,"name": ` before a later one, then `json(value)` or `[` when the value is undefined. Afterwards `inSection` holds exactly when the value was undefined, `doneFirstSection` is set, `doneFirstRow` is cleared, and the document gains that section. |
| Responder.Responder.StartSection | responder.js:42-62 | Past the guards: appends the section's fragments, sets the three flags as `addSection` does, leaves `ended`, `isArray` and the drain state alone, and keeps the invariant. |
| Responder.Responder.Write | responder.js:65-101 | Once ended: returns a rejection and changes nothing. After a value section: throws "Cannot add rows after a value section without a new section header" and changes nothing. Otherwise: a first write before any section switches to array mode and writes `[`; `,` comes before the row exactly when it is not the first row of its section; then the row's JSON. An accepted write resolves and leaves the drain state alone. A refused write returns the pending drain wait, and creates a new wait only when none was pending, so while `awaitingDrain` holds every refused write gets the same wait. |
| Responder.Responder.AppendRow | responder.js:67-81 | The writing part of `write`: appends `[` (first write before any section), `,` (after an earlier row) and the row. It sets `isArray` exactly when no section had started, sets `doneFirstSection`, `inSection` and `doneFirstRow`, and adds the row to the open array of the document. |
| Responder.Responder.Drain | responder.js:90-96 | The `drain` event clears `awaitingDrain`, keeps the invariant and changes nothing else. |
| Responder.Responder.End | responder.js:102-119 | Only the first call writes. It writes `]` if a row section is open, then `}` for an object, `[]` when nothing was written, or nothing more in array mode. `ended` and `closed` hold afterwards. A later call changes nothing. The full text written is then the rendered document. |
| Responder.RespondRows | responder.js:65-119 | Writing rows r1..rn, whatever the stream answers, and then ending writes exactly `[` json(r1) `,` … `,` json(rn) `]`, or `[]` for no rows. |
| Responder.AddRowSection | responder.js:37-101 | Adding a section with an undefined value and writing its rows leaves the document with that row section, holding those rows, appended. |
| Responder.RespondObject | responder.js:37-119 | Adding the sections in turn, with each row section's rows written after its header, and then ending writes exactly the object `{"a": …,"b": […]}` whose sections are those given, or `[]` when there are none. |
| ResponseText.ResponseIsRendered | responder.js:42-119 | For every document a responder can build, the fragments it has written plus what `end` adds spell exactly the document's complete text. |
| ResponseText.FragsWithSection | responder.js:42-62 | Adding a section to the document appends exactly the fragments `addSection` writes: the `]` of an open array, the `{` or `,` header, then the value or `[`. |
| ResponseText.FragsWithRow | responder.js:67-81 | Adding a row to the document appends exactly the fragments `write` writes: `[` when the document was blank, `,` when the open array already had a row, then the row. |
| ResponseText.NewSectionFrags | responder.js:44-60 | The fragments a new section adds: `]` if an array was open, `{` or `,` with the quoted name and `: `, then the value's JSON or `[`. |
| ResponseText.NewRowFrags | responder.js:67-81 | The fragments a new row adds: `[` if it starts a bare array, `,` after an earlier row, then the row's JSON. |
| ResponseText.EndFrags | responder.js:105-116 | The fragments `end` adds: `]` if an array is open, then nothing for a bare array, `[]` when nothing was written, `}` for an object. |
| ResponseText.WithSection | responder.js:42-62 | After a section is added, the document is an object ending in that section. An array is open exactly when the section is a row section, and the open rows are that section's rows. |
| ResponseText.WithRow | responder.js:67-81 | After a row is added, an array is open and its rows are the previous open rows plus this one. The document is a bare array exactly when it was blank or already an array. |
| ResponseText.WithRowInSection | responder.js:76-81 | A row written into a freshly added row section joins that section's rows. |
| Strings.SplitJoinRoundTrip | logger.js:67 | `messages.join(' ')` loses nothing when no message holds a space and there is at least one: splitting at single spaces gives the messages back. |
| Strings.DecimalRoundTrip | logger.js:69-70 | The decimal text that `client + ': '` gives a number reads back as that number. |
| Strings.Decimal | logger.js:69-70 | The decimal text of a number is made of digits only, at least one, with no leading zero except for 0 itself. |
| Strings.Trim | logger.js:76 | `trim()` leaves a slice of the line that neither starts nor ends with white space, and everything it removed before and after the slice is white space. |
| Strings.TrimKeepsHead | logger.js:76 | Trimming keeps a leading part that neither starts nor ends with white space. |
| Strings.TrimKeepsTail | logger.js:76 | Trimming keeps a trailing part that neither starts nor ends with white space. |
| Strings.IsJsSpace | logger.js:76 | The characters `trim()` removes: the ECMAScript WhiteSpace and LineTerminator code points. |
| Strings.JoinWith | logger.js:67-72 | `messages.join(' ')`: the parts in order, with the separator between neighbours. |
| Strings.TrimIdempotent | logger.js:76 | Trimming twice is trimming once. |
| Utf16.CharUnits | logger.js:37 | A character below U+10000 gives one code unit equal to its code point. A character above gives a high surrogate (0xD800-0xDBFF) then a low surrogate (0xDC00-0xDFFF), which decode back to the code point. |
| Utf16.CodeUnits | logger.js:36-37 | A string of n characters has between n and 2n code units. |
| Utf16.CodeUnitsBmp | logger.js:36-37 | For a string without characters above 0xFFFF, `charCodeAt(i)` is the i-th character's code point and `length` is the number of characters. |
| Cyrb53.UnitWords | logger.js:37 | The code units of a string, one 16-bit word per unit, which is what `cyrb53` mixes in. |
| Cyrb53.Start | logger.js:35 | The two words before any character: `0xdeadbeef ^ seed` and `0x41c6ce57 ^ seed`. |
| Cyrb53.Absorb | logger.js:38-39 | One turn of the loop: the code unit is xored into each word, which is then multiplied modulo 2^32 by its own constant. |
| Cyrb53.Finish | logger.js:41-42 | The two lines after the loop: the new `h1` comes from both words, and the new `h2` uses that new `h1`. |
| Cyrb53.HashLoop | logger.js:34-44 | The loop over the code units followed by the final mixing returns the hash of the string and seed, an integer in [0, 2^53). |
| Cyrb53.Hash | logger.js:41-43 | The hash is below 2^53. Its value modulo 2^32 is the final `h1` read as unsigned, and its value divided by 2^32 is the final `h2 & 0x1FFFFF`. |
| Cyrb53.Combine | logger.js:43 | `4294967296 * (2097151 & h2) + (h1 >>> 0)` is below 2^53, and its low 32 bits and its high part give back `h1 >>> 0` and `2097151 & h2`. |
| Cyrb53.Unsigned | logger.js:43 | `h1 >>> 0` is in [0, 2^32). |
| Cyrb53.Low21 | logger.js:43 | `2097151 & h2` is in [0, 2^21). |
| Cyrb53.AbsorbInIndexOrder | logger.js:35-40 | The loop mixes every code unit exactly once, in index order from 0 to length-1: it agrees with the fold that mixes in the first code unit and then the rest. |
| Cyrb53.AbsorbAppend | logger.js:35-40 | Mixing in a concatenation is mixing in its two parts one after the other. |
| Cyrb53.EmptyHashDependsOnSeedOnly | logger.js:35-43 | For the empty string nothing is mixed in, so the hash is a function of the seed alone. |
| Cyrb53.EncoderFor | logger.js:31-34 | The identity variant is chosen exactly when `LOG_NO_ENCODE` is set to a non-empty string. |
| Cyrb53.Encode | logger.js:31-44 | The identity variant returns its argument unchanged. The hashing variant returns a number in [0, 2^53). |
| Logger.ColourFor | logger.js:46-57 | `COLOURS[key]` finds the colour whose key is `key`, and is undefined only when no colour has that key. |
| Logger.ColourRoundTrip | logger.js:46-57 | Every colour is found under its own key. |
| Logger.ColourKey | logger.js:65-71 | The colour key: `ip` when it is not an address, otherwise `level`. |
| Logger.Message | logger.js:67-72 | The coloured text ends with the messages joined by single spaces. It is preceded by `level` when `ip` is not an address. |
| Logger.ClientLabel | logger.js:69 | The label is the address unless `LOG_IP_HIDDEN` is set and the hash is in use. In that case it is the decimal text of the hash of the address with seed 0. |
| Logger.Prefix | logger.js:62-70 | The date and `: ` unless `LOG_NO_DATE` is set, then for an address the client label and `: ` painted in the client colour. |
| Logger.LogCall | logger.js:59-78 | Nothing is printed exactly when `LOG_NONE` is set. Otherwise, the call throws exactly when the colour key is not in `COLOURS`. The key is `ip` when it is not an address and `level` when it is. A printed line has no white space at either end. |
| Logger.NoDateIgnoresClock | logger.js:62 | With `LOG_NO_DATE` set, the outcome is the same whatever the time. |
| Logger.DateLeadsLine | logger.js:62 | With `LOG_NO_DATE` unset, a printed line starts with the date and a colon, given a date that does not start with white space. |
| Logger.ClientLeadsLine | logger.js:62-70 | When `ip` is an address, a printed line starts with the date part and then the painted client label and `: `, given painted text that trimming cannot reach into. |
| Logger.MessageEndsLine | logger.js:65-76 | A printed line ends with the message painted in the key's colour. The key is `ip` for a non-address and `level` for an address. The message is `level` glued to the joined messages for a non-address, and the joined messages alone for an address. This holds given painted text that does not start or end with white space. |
| Logger.NotAnAddress | logger.js:65-67 | When `ip` is not an address, it is the colour key and there is no client prefix. The message is `level` followed directly, with no separator, by the messages joined by single spaces. With at least one message and no space in any message, splitting at single spaces gives the messages back. Without the date, the printed line is the coloured message alone, trimmed. |
| Logger.AnAddress | logger.js:68-74 | When `ip` is an address, the call throws exactly when `level` is not a colour key. Without the date, the printed line is the painted client label and `: `, then the joined messages in the level's colour, trimmed. |
| Logger.HiddenLabelIsHash | logger.js:69-70 | With `LOG_IP_HIDDEN` set and the hash in use, the label is 1 to 16 decimal digits that read back as the hash of the address's code units with seed 0. |
| Logger.HiddenAddressesByHash | logger.js:68-72 | With `LOG_IP_HIDDEN` set and the hash in use, two addresses with the same hash give the same outcome: the address shows only through its hash. |
| Logger.IdentityLabel | logger.js:69-70 | With the identity variant, the label is the address itself, whether or not `LOG_IP_HIDDEN` is set. |

## Left out

- Connection pooling, an admission ceiling, transactions and schema migration are not implemented in `database.js` or in any other file modelled here, so nothing of them is modelled.
- `database.js` is I/O plumbing around the SQLite driver: it reads the environment, deletes files and registers an exit hook. Its one pure fragment, the PIN padding, depends on `Math.random`.
- `version.js` runs `git` in child processes and reads files.
- `JSON.stringify`, the chalk colour functions, `net.isIP`, `Date.prototype.toISOString` and `console.log` are parameters without internals. Whether a section name needs escaping is not modelled: `responder.js` splices names raw into the output, so the text is not claimed to be valid JSON for every name.
- `Responder.Responder.Write` models the Promise of a drain wait by its number (`Pending(n)` for the n-th wait created), not as an object that resolves. The `drain` event is the method `Drain`, and asynchrony and listener registration are not modelled.
- `Responder.Responder.AddSection` / `Write`: `JSON.stringify` is the total function `json`. In the source it can throw, on a BigInt or a cyclic value, and it does so after the fragments before the value are written and the flags are changed. For example, `addSection('a', 10n)` leaves `{"a": ` written with `doneFirstSection` still false. That partial state is not modelled.
- `Responder.Responder.AddSection` / `Write`: the `debug` logging is not modelled.
- `Responder.Responder.Write` checks for a value section before the first-write step, whereas `responder.js` does it after. This is equivalent: the first-write step sets `inSection`, so the check cannot fire right after it, and the check changes no state when it does fire.
- `Cyrb53.HashLoop`: the loop body calls `Absorb` and the final lines call `Finish` and `Combine`. These functions are written with the same `bv32` operations as logger.js:38-39 and 41-43, not as separate assignment statements.
- `Cyrb53.HashLoop`: the seed is its 32-bit pattern, because JavaScript converts it with ToInt32 before the `^`. The logger always passes the default seed 0.
- `Cyrb53.UnitWords` / `Logger.LogCall`: a JavaScript string can hold an unpaired surrogate (for example `'\uD800'`, one code unit 0xD800), and `cyrb53` hashes that unit. A Dafny `char` cannot hold a surrogate code point, so the model only covers well-formed UTF-16. An address, level or message with a lone surrogate is not modelled.
- `Logger.LogCall`: the messages and the level are strings. JavaScript's conversion of other values to text through `join` and `+` is not modelled.
- `Logger.ColourFor`: the keys of `COLOURS` are its nine own properties. Names inherited from `Object.prototype`, such as `toString` or `__proto__`, are not modelled. With such a key the source uses the inherited member, and calling it may or may not throw.
- `Logger.ClientLeadsLine` / `Logger.MessageEndsLine`: the painted client label and the painted message are assumed not to start or end with white space. The colour functions are parameters, so the model cannot know this. It holds when they wrap the text in escape codes. With colours switched off, a message with white space at an edge can be trimmed into, and neither lemma says anything about that line.
- `Logger.LogCall`: a key that is not in `COLOURS` makes the source throw a `TypeError` when it calls `undefined`. This is modelled as the outcome `NoColour(key)`, without the error's text.
