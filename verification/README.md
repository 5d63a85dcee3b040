# Sample-setup agent: a Dafny model

The program is a small terminal tool for a beamline. A user confirms a proposal ID.
The tool then keeps asking whether to add another sample. For each new sample it:

- draws a random sample ID;
- sends the user's free-text description to an LLM, which fills in a JSON template;
- stores the reply under the ID in a per-proposal JSON file;
- can print the file as a table.

A test file holds the checks a reply must pass: template keys in order, field types, and
numeric and detector ranges.

This project models that core as pure Dafny functions over immutable data, and proves
what the code promises:

- `base58.dfy`: the sample ID. Four random bytes are read as a big-endian integer, written
  in base 58 over the alphabet `123456789ABCDEFGHJKLMNPQRSTUVWXYZabcdefghijkmnopqrstuvwxyz`,
  and cut to the first **three** characters. The loop exactly as written (`SampleHash`) is
  proved equal to a functional definition (`Encode`). Base-58 decoding is the partner
  definition: the full encoding round-trips through it, and a truncated ID decodes to the
  number's leading digits.
- `samples.dfy`: the sample store and `show_samples`. The store is an insertion-ordered
  JSON object. Adding a sample is `response["user_sample_input"] = text` followed by
  `existing_data.update(...)`. The table is built from the first record's keys, leaving out
  the user-input column. Every exception `show_samples` can raise is a `TableError`.
- `replies.dfy`: the y/n answers. `input().strip().lower()` is compared with `y`/`yes` and
  `n`/`no`. The result is characterised by a declarative predicate: some case-insensitive
  spelling of a word, with only whitespace around it.
- `session.dfy`: the `__main__` loop as a state machine over a sequence of turns. The
  terminal input, the random bytes and the parsed LLM reply of each pass are parameters
  (a `Line`). The loop hears a line as a `Turn`: the same data with the typed answer
  already classified as `y`/`yes`, `n`/`no` or neither.
- `response_check.dfy`: the reply checks of the test as an ordered validator that
  reports the first failing assertion. It is proved equivalent to a declarative
  `Valid` predicate. Python's `bool` is an `int`, so `true` counts as the number 1.
- `wrappers.dfy`, `seqs.dfy`, `dicts.dfy`, `json.dfy`: `Option`/`Result`, the list
  operations used (`list.remove`, `reversed`, slicing), Python `dict` as an ordered
  sequence of key/value pairs, and the JSON value type.

The docstring and comment of `get_random_sample_hash` speak of a 6-character hash. The code
slices `[:3]`, and the model follows the code (`IdLength == 3`). `EncodeCollides` shows the
consequence: two different 32-bit numbers get the same ID. Likewise, the test's message
for temperatures says "between 0 and 10000", but its comparison uses 1000. The model uses
1000.

## Model

| member | source | states |
|---|---|---|
| Base58.FromBigEndian | main.py:31 | `int.from_bytes(bs, "big")` is below 256^len(bs) |
| Base58.FourBytesRange | main.py:29-31 | four random bytes give an integer below 2^32 |
| Base58.AlphabetSpelledOut | main.py:27 | the digit-order alphabet is exactly the 58-character string the function writes out |
| Base58.AlphabetMembers | main.py:27 | a character is in the alphabet exactly when it names a digit, and it sits at that digit's position |
| Base58.AlphabetAvoidsLookalikes | main.py:27 | `0`, `O`, `I` and `l` are not in the alphabet |
| Base58.Digits | main.py:34-36 | the `divmod` loop's digits, most significant first: none for zero, never a leading zero digit |
| Base58.ValueOfDigits | main.py:34-36 | reading the digits back gives the number (the loop loses nothing) |
| Base58.DigitsOfValue | main.py:34-36 | a digit string without a leading zero is the digit string of its own value |
| Base58.DigitsLength | main.py:34-36 | a number has at most k digits exactly when it is below 58^k |
| Base58.ValueSplit | main.py:38-39 | cutting a digit string after k digits leaves a head worth the value divided by 58 to the number of cut digits |
| Base58.Decode | main.py:27 | decoding succeeds exactly on strings made only of alphabet characters |
| Base58.DecodeToChars | main.py:36 | the characters of a digit string decode to that string's value |
| Base58.FullEncoding | main.py:33-39 | the untruncated encoding has one character per base-58 digit of the number |
| Base58.DecodeFullEncoding | main.py:33-39 | decoding the untruncated encoding returns the number |
| Base58.EncodeDecoded | main.py:33-39 | every alphabet string not starting with `1` is the untruncated encoding of what it decodes to |
| Base58.FullEncodingLength | main.py:29-36 | a 32-bit number has at most six base-58 digits |
| Base58.FullEncodingChars | main.py:34-39 | every character of the encoding is in the alphabet, and a nonzero number's encoding does not start with `1` |
| Base58.Encode | main.py:24-39 | the ID has at most three alphabet characters, is empty exactly for zero, and never starts with `1` |
| Base58.EncodeLength | main.py:39 | the ID keeps exactly min(3, number of digits) characters |
| Base58.EncodeSpellsLeadingDigits | main.py:38-39 | the ID spells the number's leading base-58 digits |
| Base58.EncodeKeepsLeadingDigits | main.py:38-39 | the ID decodes to the number divided by 58^(dropped digits), rounded down, and to the number itself when it has three digits or fewer |
| Base58.LeadingDigitsOfPow5 | main.py:34-39 | 58^5 + d is written `1`, four `0` digits, then d, and its ID is `211` |
| Base58.EncodeCollides | main.py:39 | two different 32-bit numbers (58^5 and 58^5 + 1) get the same ID `211` |
| Base58.SampleHash | main.py:29-39 | the while loop with `append` and `reversed` computes `Encode` of the bytes' integer |
| Seqs.IndexOf | main.py:49 | the position `list.remove` acts on: it holds the element, and no earlier position does |
| Seqs.RemoveFirst | main.py:49 | `headers.remove(x)` drops exactly the first occurrence of x; an absent x, where `list.remove` raises `ValueError`, is reported by `ShowSamples` as `NoUserInputColumn` before any header row is built |
| Seqs.RemoveFirstMembers | main.py:49 | on a list without repetitions, what remains is every element except x |
| Seqs.Reverse | main.py:39 | `reversed` keeps the length and mirrors positions |
| Seqs.Take | main.py:39 | `[:n]` is a prefix of length min(n, len) |
| Dicts.Keys | main.py:48 | `list(d.keys())` lists the keys in insertion order |
| Dicts.GetFinds | main.py:54 | a lookup finds a value exactly when the key is present, and it is the value paired with the key's first occurrence |
| Dicts.GetOrDefault | main.py:54 | `d.get(k, default)` is the stored value for a present key and the default for a missing one |
| Dicts.Put | main.py:197-203 | item assignment or `update` with one key sets that key, keeps every other key's value, keeps an existing key's place, and appends a new key |
| Dicts.GetAt | main.py:54 | in a dict without repeated keys, each pair's key looks up that pair's value |
| Samples.AddSample | main.py:197-203 | the store gains the reply with the user text under the ID, other samples unchanged; a non-object reply raises instead |
| Samples.Row | main.py:54 | a row is the sample ID followed by one cell per column: the record's value for that key, or `""` when it has none |
| Samples.FirstNonRecord | main.py:53-54 | the first sample whose record has no `.get`, if any |
| Samples.TableOf | main.py:48-55 | for a store `show_samples` can print (non-empty, first record an object holding `user_sample_input`, every record an object when there is a column): the headers are `Sample ID` plus the first record's keys minus `user_sample_input`; there is one row per sample in store order, each cell is the record's value or `""` |
| Samples.ShowSamples | main.py:42-58 | a table exactly when the store is non-empty, the first record is an object with a user-input key, and every record is an object whenever there is a column to read; otherwise the exception raised first |
| Samples.OnlyIdsWithoutColumns | main.py:48-55 | when the first record holds only the user text, the table is the `Sample ID` column alone, one ID per sample, whatever the other records hold |
| Samples.NumberBelowInputOnlyRecord | main.py:53-54 | below a first record holding only the user text, a sample whose value is a number still prints as its ID alone |
| Samples.HeadersAreFirstRecordKeys | main.py:48-49 | a column after `Sample ID` is exactly a key of the first record other than the user-input key |
| Samples.RowIgnoresInput | main.py:54 | a row is unaffected by the user-input field when that field is not a column |
| Samples.TableOfAppend | main.py:53-55 | appending a record appends its row and keeps the columns |
| Samples.TableAfterAdd | main.py:197-203 | adding a sample under a new ID adds one row at the bottom with the reply's own cells; the earlier rows and the columns stay |
| Replies.LeadingSpaceRun | main.py:144 | the characters `lstrip` drops are all whitespace, and the first one it keeps is not |
| Replies.TrailingSpaceRun | main.py:144 | the characters `rstrip` drops are all whitespace, and the last one it keeps is not |
| Replies.LeadingSpaceIs | main.py:144 | a whitespace run followed by a non-space character is exactly what `lstrip` drops |
| Replies.BeforeTrailingSpaceIs | main.py:144 | a non-space character followed by a whitespace run marks exactly where `rstrip` cuts |
| Replies.StripLeftUnique | main.py:144 | `lstrip` leaves the suffix after any leading whitespace run that ends before a non-space character |
| Replies.StripRightUnique | main.py:144 | `rstrip` leaves the prefix before any trailing whitespace run that starts after a non-space character |
| Replies.StripEnds | main.py:144 | `strip` never lengthens a line, leaves no whitespace at either end, gives `""` exactly for an all-whitespace line, and keeps a line without whitespace at its ends whole |
| Replies.StripShape | main.py:144 | `strip` keeps a slice with whitespace only around it and none at either end |
| Replies.StripUnique | main.py:144 | any such slice is the one `strip` keeps |
| Replies.Lower | main.py:144 | `lower` keeps the length |
| Replies.WordEnds | main.py:145 | each accepted word, in any letter case, starts and ends with a letter, so it has no whitespace at either end |
| Replies.SaysMeansStripped | main.py:166-167 | the declarative reading of an answer agrees with `strip().lower()` membership |
| Replies.ClassifyMeaning | main.py:166-212 | an answer confirms exactly when it is `y`/`yes` up to case and surrounding whitespace, and declines exactly when it is `n`/`no`; anything else, empty included, is neither |
| Session.Hear | main.py:166-167 | a typed line is heard as a confirmation exactly when it says `y`/`yes`, and as a refusal exactly when it says `n`/`no`; the bytes, details and reply pass through unchanged |
| Session.HearAll | main.py:164-166 | the loop hears every line once, in the order typed |
| Session.SampleId | main.py:168 | the drawn ID has at most three alphabet characters, is empty exactly when the four bytes are all zero, and never starts with `1` |
| Session.Step | main.py:164-212 | an unrecognised answer keeps the loop going with the store unchanged; `no` ends it unchanged; a crash happens exactly on `yes` with a non-object reply and leaves the file untouched |
| Session.StepAddsRecord | main.py:167-203 | a confirmed turn with an object reply stores the reply with the user text under the drawn ID, and every other sample is unchanged |
| Session.StepStores | main.py:197-203 | a confirmed turn with an object reply stores exactly `existing_data.update({sample_id: response})` after adding the user text |
| Session.RunUnfold | main.py:164-212 | the loop runs again after a continuing pass and stops after an ending one |
| Session.RunStillAsking | main.py:163-212 | the loop is still asking after a sequence of turns only if none of them said `n`/`no` and every `y`/`yes` came with a JSON object reply |
| Session.RunEndsOn | main.py:163-212 | a loop that has ended names the turn that ended it: a `n`/`no` when it finished, a `y`/`yes` with a non-object reply when it crashed |
| Session.RunKeepsIds | main.py:163-212 | no sample ID ever leaves the store during the loop |
| Session.StepKeepsIds | main.py:197-203 | one pass never removes a sample ID |
| Session.StepIds | main.py:167-203 | one pass adds at most the ID it drew, and only on `yes` |
| Session.RunNewIds | main.py:163-212 | every ID in the final store was there at the start or was drawn on a turn that said yes, and that turn is named |
| Session.StepKeepsRecord | main.py:197-203 | one pass leaves the record under an ID alone unless it confirmed and drew that ID |
| Session.RunKeepsRecord | main.py:163-212 | a sample keeps its record through the loop when no confirmed turn draws its ID |
| Session.DrawsCollidingId | main.py:29-39 | the bytes `27 1F 35 A0` draw the ID `211` |
| Session.CollisionReplacesRecord | main.py:197-203 | a new sample whose drawn ID is already in the file replaces that sample's record: the ID list stays `["211"]` and the old record is gone |
| Session.RunWithoutYes | main.py:163-212 | without a confirming answer, the store is unchanged and the loop does not crash |
| Session.RunStopsWhenEnded | main.py:209-210 | after the loop ends, nothing typed later is read |
| Session.Begin | main.py:144-156 | the session goes on exactly when the confirmation says `y`/`yes`, with the existing file or a new empty one |
| Session.Main | main.py:138-212 | the adding loop runs exactly when the proposal is confirmed, from the existing samples or from none, over the lines as the loop hears them |
| Session.SessionKeepsExistingSamples | main.py:140-212 | a session gets past the proposal check exactly on `y`/`yes`, and then keeps every sample ID the file already held |
| ResponseCheck.AsNumber | test.py:64-68 | a value is a number exactly when it is a bool, an int or a float; `true` counts as 1 and `false` as 0 |
| ResponseCheck.ExpectedKeysDistinct | test.py:48 | the template's eight keys are pairwise different |
| ResponseCheck.MembersByPosition | test.py:48-58 | an object with exactly the template's keys holds each field at its template position |
| ResponseCheck.CheckShape | test.py:46-58 | the type checks pass exactly when the reply is an object with the template keys in order, four strings, three lists and a boolean; each of the ten failures is reported exactly when its check is the first to fail |
| ResponseCheck.CheckContents | test.py:60-73 | the element checks pass exactly when every energy is a number strictly between 10 and 10000, every temperature strictly between 0 and 1000, and every detector is `MTE3` or `Andor`; each of the five failures is reported exactly when its check is the first to fail |
| ResponseCheck.Validate | test.py:45-73 | the reply passes exactly when `Valid` holds; a non-object, wrong keys or an unknown detector are reported exactly when they are the first failure; a reply of the wrong shape gets the type check's own verdict |
| ResponseCheck.ValidateShaped | test.py:60-73 | once the shape is right, only the three lists' elements decide |
| ResponseCheck.ToJson | test.py:48 | a filled-in request becomes an object with the template keys in order |
| ResponseCheck.ToJsonMembers | test.py:48-58 | reading a filled-in request back by key gives each of its fields |
| ResponseCheck.RequestShaped | test.py:47-58 | every filled-in request has the shape the test demands |
| ResponseCheck.RequestContents | test.py:60-73 | a request's lists pass exactly when its numbers are in range |
| ResponseCheck.ValidateRequest | test.py:45-73 | a filled-in request passes exactly when its energies and temperatures are in range, whatever its strings, detectors and field flag |
| ResponseCheck.EmptyListsPass | test.py:63-73 | empty energy, temperature and detector lists pass |
| ResponseCheck.ListsVerdicts | test.py:63-68 | the verdicts of the element checks on the four example lists below |
| ResponseCheck.TrueIsATemperature | test.py:66-68 | `true` is accepted as a temperature (it counts as 1) |
| ResponseCheck.TrueIsNotAnEnergy | test.py:63-65 | `true` is rejected as an energy: out of range, not non-numeric |
| ResponseCheck.LowestEnergyExcluded | test.py:65 | the bounds are strict: 10 eV is rejected |
| ResponseCheck.QuotedTemperatureRejected | test.py:67 | a temperature written as a string is non-numeric |
| ResponseCheck.WithListsShape | test.py:48-58 | replacing a request's lists keeps the reply well-shaped |
| ResponseCheck.ValidateWithLists | test.py:60-73 | the verdict on such a reply is the verdict on its lists |

## Left out

- The web front end (server.py:12-37) is not modelled. It is a WebSocket endpoint that starts `python -u main.py` as a subprocess and relays the browser's lines to its standard input and its output back. It is pure I/O around the modelled program.
- The LLM: settings, client setup, the prompt text and the call itself are not modelled. Each turn's reply enters the model already parsed, as a JSON value.
- A reply that is not valid JSON is not modelled. `json.loads` raises on it before any of the modelled code runs.
- A sample file that does not hold a JSON object is not modelled. Invalid JSON makes `json.load` raise (main.py:201), and a top-level list or number makes `update` raise (main.py:203). `Begin` takes the existing file as an optional store, so it can only be a JSON object or absent.
- File I/O is not modelled: the existence check, `json.load`, `json.dump`, and rereading the file on every pass. The store is threaded through the loop as a value, which equals what the file would hold.
- The printing of `show_samples` and the two places `__main__` calls it are left out. `ShowSamples` gives the table each call would print, or the exception it would raise.
- `os.urandom` is not modelled. Each turn carries its four random bytes as a parameter.
- `proposal_id` and the file name built from it are left out. They only name the file.
- PrettyTable's rejection of duplicate column names is left out. It can only arise when the first record itself has a `Sample ID` key, and it is library behaviour outside the program.
- A JSON object written with a repeated key is not represented: `json.loads` keeps the last value, and the model takes every object as already decoded, with distinct keys.
- Seqs.RemoveFirst: is total. For an absent element it returns the list unchanged where `list.remove` raises `ValueError`; the only caller, the header row, is built after `ShowSamples` has already reported that case as `NoUserInputColumn`.
- Replies.Lower: lower-cases ASCII letters only. No other character lower-cases to a letter of `y`, `yes`, `n` or `no`, so `Classify` still agrees with Python's `lower()`.
- ResponseCheck.AsNumber: JSON floats are modelled as exact reals. There is no NaN or infinity, which Python's `json` accepts and which fail every range comparison.
- Session.SessionKeepsExistingSamples: promises that every existing sample ID survives, not its record. A drawn ID that is already taken replaces that record (`CollisionReplacesRecord`); `RunKeepsRecord` keeps a record only when no confirmed turn draws its ID.
- The pytest driver in the test file is left out: reading the example texts, calling the agent, and the string and JSON-syntax assertions before line 45.
