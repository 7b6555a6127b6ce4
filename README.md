# JCmdLineParser in Dafny

A model of `JCmdLineParser`, a GNU-style command-line option parser for Java.
Callers register options that have an optional one-character short form
(`-d`) and a long form (`--debug`). Each option has one of five kinds:
Boolean, Integer, Long, Double or String. `parse` then walks the argument
vector once, from left to right. It classifies each token as one of:

- the terminator `--`;
- a long option, possibly with an inline value (`--debug=2`);
- a bundle of short flags (`-abc`);
- an option spelling that may take the next token as its value (`-d 2`);
- a positional argument.

Values are read per kind and recorded per long form, in encounter order.
Positional arguments are kept as the remaining options.

Modules:

- `Wrappers` (wrappers.dfy): `Option` (Java's `null` is `None`) and `Result`.
- `Decimal` (decimal.dfy): `Integer.parseInt` and `Long.parseLong` in radix 10 over ASCII digits. It also holds the `toString` they invert.
- `Options` (options.dfy): the `Option` class hierarchy as the datatype `CmdOption`, whose `Kind` replaces the subclasses. It also holds the values, the four exceptions with their payload fields as `OptionError`, and `getValue`, `parseValue` and `getDefaultValue`.
- `Registry` (registry.dfy): the option table, and `addOption` as the function `Register`.
- `Grammar` (grammar.dfy): what one `parse` computes, as functions over the unconsumed tokens.
  - `Scan` is the main loop.
  - `Flags` is the inner loop over a bundle.
  - `SplitLong` is the split at the first `=`.

  The module also holds the lemmas that state the parser's properties.
- `Parser` (parser.dfy): the `JCmdLineParser` object as the class `CmdLineParser`. Its fields are the option table, the recorded values and the remaining options.
  - `Parse` keeps the `while` loop over `position` and the trailing loop over leftover tokens. It is proved to end in exactly the state that `Grammar.ParseArgs` describes, including the partial values left by an exception.
  - The per-token body of that loop for option tokens is the method `ScanOption`.
  - The inner `for` loop over a bundle is the method `AddFlags`.

  These two splits keep each proof within the verifier's budget. The statements and their order are those of the source.

Two behaviours of the code are easy to miss; the model follows the code in both:

- Registering a spelling that is already present silently overwrites it. No duplicate error exists.
- A failed `parse` keeps the values recorded before the exception, because the values map is reset at the start of the call. It also keeps the remaining options of the previous successful parse.

## Model

| member | source | states |
|---|---|---|
| `Decimal.ParseDecimal` | src/main/java/com/deng/joptions/JCmdLineParser.java:200-229 | a text is accepted exactly when it is an optional sign followed by one or more digits whose value lies within the range of the target type, and the result is that value (`+5`, `007` and `-0` included) |
| `Decimal.DigitsOfNat` | src/main/java/com/deng/joptions/JCmdLineParser.java:204 | reading back the decimal digits of a natural number gives that number |
| `Decimal.NatToDigitsOfValue` | src/main/java/com/deng/joptions/JCmdLineParser.java:204 | conversely, digits without leading zeros are exactly the digits of the value they denote |
| `Decimal.ParseDecimalRoundTrip` | src/main/java/com/deng/joptions/JCmdLineParser.java:200-229 | every number in range survives `toString` followed by the decimal parse |
| `Decimal.StripZeros` | src/main/java/com/deng/joptions/JCmdLineParser.java:204 | dropping the leading zeros of a digit run leaves a nonempty digit run without leading zeros |
| `Decimal.StripZerosValue` | src/main/java/com/deng/joptions/JCmdLineParser.java:204 | dropping leading zeros does not change the value a digit run denotes |
| `Decimal.ParseDecimalCanonical` | src/main/java/com/deng/joptions/JCmdLineParser.java:200-229 | conversely, every accepted text reads as the number whose `toString` is that text without `+`, without leading zeros and without a sign on zero |
| `Options.DefaultValue` | src/main/java/com/deng/joptions/JCmdLineParser.java:180-183 | an option that takes no value records Boolean `true` |
| `Options.ParseValue` | src/main/java/com/deng/joptions/JCmdLineParser.java:185-265 | a read value has the option's kind; a String value is the text unchanged; a Boolean is `true`; an Integer (Long) value is accepted exactly when the text is a signed digit run within 32 (64) bits, and is then the number it denotes; a Double is the number format's result, and fails exactly when the format rejects the text; every failure is `IllegalOptionValue` carrying the option and the raw text |
| `Options.GetValue` | src/main/java/com/deng/joptions/JCmdLineParser.java:154-160 | an option without a value yields `true` and ignores any text; a value-requiring option with no text fails with `IllegalOptionValue` carrying the empty text; a supplied text is read by `ParseValue` |
| `Options.IntegerValueRoundTrip` | src/main/java/com/deng/joptions/JCmdLineParser.java:200-229 | an Integer option reads back every 32-bit number, and a Long option every 64-bit number, from its decimal text |
| `Options.IntegerValueRejects` | src/main/java/com/deng/joptions/JCmdLineParser.java:200-229 | an Integer or Long option rejects, with the raw text as payload, text that is not a signed digit run (the empty text among them) and out-of-range numbers |
| `Registry.Register` | src/main/java/com/deng/joptions/JCmdLineParser.java:269-276 | after registration, `--longForm` and (when present) `-shortForm` lead to the option; the spellings are exactly the old ones plus the option's own; any other spelling keeps its option; a present spelling is overwritten; every spelling still belongs to the option it leads to |
| `Registry.LoneDashUnregistered` | src/main/java/com/deng/joptions/JCmdLineParser.java:269-276 | in a table built by registration, `-` is never a spelling |
| `Grammar.Record` | src/main/java/com/deng/joptions/JCmdLineParser.java:414-430 | recording appends exactly one value to the end of the long form's list, creating the list if absent, and changes no other list |
| `Grammar.IndexOf` | src/main/java/com/deng/joptions/JCmdLineParser.java:362 | the index found holds the character and no earlier position does; none is found only if the character does not occur |
| `Grammar.SplitToken` | src/main/java/com/deng/joptions/JCmdLineParser.java:361-367 | a token without a leading `--` is all spelling; a `--` token is its spelling, `=` and its inline value, with no `=` in the spelling |
| `Grammar.SplitLong` | src/main/java/com/deng/joptions/JCmdLineParser.java:361-366 | the token is the spelling, `=`, and the inline value, with no `=` in the spelling; without `=` the whole token is the spelling |
| `Grammar.SplitAtFirstEquals` | src/main/java/com/deng/joptions/JCmdLineParser.java:361-366 | `--name=v` splits into `--name` and `v` whatever `v` contains |
| `Grammar.Flags` | src/main/java/com/deng/joptions/JCmdLineParser.java:369-377 | the bundle loop keeps every recorded key, and the only exceptions it raises are `UnknownSuboption` and `NotFlag`, each carrying the whole token |
| `Grammar.Scan` | src/main/java/com/deng/joptions/JCmdLineParser.java:353-407 | scanning keeps every recorded key; the remaining arguments only grow, and every token added to them is one of the scanned tokens |
| `Grammar.ParseArgs` | src/main/java/com/deng/joptions/JCmdLineParser.java:349-411 | every remaining argument of a parse is one of its input tokens |
| `Grammar.PositionalPrefix` | src/main/java/com/deng/joptions/JCmdLineParser.java:399-402 | tokens without a leading dash are appended to the remaining arguments in input order, and nothing is recorded |
| `Grammar.TerminatorKeepsTail` | src/main/java/com/deng/joptions/JCmdLineParser.java:356-359 | at `--` the scan stops without error; the terminator is dropped and every later token is appended verbatim |
| `Grammar.TerminatorAfterPositionals` | src/main/java/com/deng/joptions/JCmdLineParser.java:349-411 | parsing positionals, `--`, then anything records nothing and leaves all tokens but the terminator, in order |
| `Grammar.InlineValueSameAsNextToken` | src/main/java/com/deng/joptions/JCmdLineParser.java:361-391 | for a value-requiring option, `--name=v` has the same outcome as `--name v` |
| `Grammar.InlineValueIgnoredByFlag` | src/main/java/com/deng/joptions/JCmdLineParser.java:361-395 | for an option without a value, `--name=v` has the same outcome as `--name`, so the inline value is ignored |
| `Grammar.FlagSpellingStep` | src/main/java/com/deng/joptions/JCmdLineParser.java:381-397 | any option token other than `--` and a bundle whose spelling names an option without a value records `true` for it once and consumes one token, ignoring an inline value |
| `Grammar.LongFlagStep` | src/main/java/com/deng/joptions/JCmdLineParser.java:381-397 | a long-form flag token `--name` records `true` for it once and consumes one token |
| `Grammar.FlagTokenStep` | src/main/java/com/deng/joptions/JCmdLineParser.java:381-397 | a `-c` token for a flag records `true` for it once and consumes one token |
| `Grammar.FlagsRecordAll` | src/main/java/com/deng/joptions/JCmdLineParser.java:369-377 | when every remaining character of a bundle is a flag, the inner loop records `true` for each, left to right, without error |
| `Grammar.FlagsStopAtBad` | src/main/java/com/deng/joptions/JCmdLineParser.java:369-377 | the inner loop stops at the first character that is not a flag and throws for it, keeping the flags recorded before it |
| `Grammar.BundleRecordsEachFlag` | src/main/java/com/deng/joptions/JCmdLineParser.java:368-380 | a bundle of flags records `true` once per character, left to right, and consumes exactly one token |
| `Grammar.BundleStopsAtFirstBadFlag` | src/main/java/com/deng/joptions/JCmdLineParser.java:368-380 | the first bundle character that is unknown raises `UnknownSuboption(token, c)`. The first one whose option takes a value raises `NotFlag(token, c)`. The flags before it stay recorded. |
| `Grammar.SeparateFlagsRecord` | src/main/java/com/deng/joptions/JCmdLineParser.java:381-397 | the separate tokens `-a -b ...` for flags record `true` for each, in order |
| `Grammar.BundleIsSeparateFlags` | src/main/java/com/deng/joptions/JCmdLineParser.java:368-397 | `-abc` has the same outcome as `-a -b -c` when every character is a flag other than `-` |
| `Grammar.UnknownSpellingFails` | src/main/java/com/deng/joptions/JCmdLineParser.java:381-382 | a dash token (not `--`, not a bundle) whose spelling is not registered raises `UnknownOption` carrying that spelling (the part before `=` for long forms), and records nothing |
| `Grammar.LoneDashFails` | src/main/java/com/deng/joptions/JCmdLineParser.java:381-382 | a lone `-` raises `UnknownOption("-")` in any table built by registration |
| `Grammar.ValueTakesNextToken` | src/main/java/com/deng/joptions/JCmdLineParser.java:384-392 | a value-requiring option with no inline value takes the next token as its value unconditionally (`--` and `-x` included), records it or raises its coercion error, and consumes both tokens |
| `Grammar.MissingValueFails` | src/main/java/com/deng/joptions/JCmdLineParser.java:384-391 | a value-requiring option as the last token raises `IllegalOptionValue` with the empty text, recording nothing |
| `Grammar.RecordAllAppends` | src/main/java/com/deng/joptions/JCmdLineParser.java:414-430 | successive recordings append their values to one list in order and leave other lists alone |
| `Grammar.RepeatedOccurrencesInOrder` | src/main/java/com/deng/joptions/JCmdLineParser.java:414-430 | repeated `--name=v` occurrences of a String option record one value each, in encounter order |
| `Grammar.FlagsOnlyAppend` | src/main/java/com/deng/joptions/JCmdLineParser.java:369-377 | the bundle loop only appends: every list it starts from is a prefix of the list it leaves |
| `Grammar.ScanOnlyAppends` | src/main/java/com/deng/joptions/JCmdLineParser.java:353-403 | a scan, successful or not, only appends: every recorded list is a prefix of the final one, so nothing is lost or reordered |
| `Parser.CmdLineParser.constructor` | src/main/java/com/deng/joptions/JCmdLineParser.java:47-49 | a new parser has no options, no values and no remaining options |
| `Parser.CmdLineParser.AddOption` | src/main/java/com/deng/joptions/JCmdLineParser.java:269-276 | the table becomes `Register(old table, option)`, and the option is returned |
| `Parser.CmdLineParser.AddBooleanOption` | src/main/java/com/deng/joptions/JCmdLineParser.java:278-284 | registers and returns a Boolean option with the given short and long forms |
| `Parser.CmdLineParser.AddIntegerOption` | src/main/java/com/deng/joptions/JCmdLineParser.java:286-292 | registers and returns an Integer option with the given short and long forms |
| `Parser.CmdLineParser.AddLongOption` | src/main/java/com/deng/joptions/JCmdLineParser.java:294-300 | registers and returns a Long option with the given short and long forms |
| `Parser.CmdLineParser.AddDoubleOption` | src/main/java/com/deng/joptions/JCmdLineParser.java:302-308 | registers and returns a Double option with the given short and long forms |
| `Parser.CmdLineParser.AddStringOption` | src/main/java/com/deng/joptions/JCmdLineParser.java:310-316 | registers and returns a String option with the given short and long forms |
| `Parser.CmdLineParser.AddValue` | src/main/java/com/deng/joptions/JCmdLineParser.java:414-430 | on a coercion error nothing changes and the error is returned; otherwise the value is appended to the option's long-form list |
| `Parser.CmdLineParser.AddFlags` | src/main/java/com/deng/joptions/JCmdLineParser.java:368-380 | the bundle loop leaves the values and exception that `Flags` describes |
| `Parser.CmdLineParser.ScanOption` | src/main/java/com/deng/joptions/JCmdLineParser.java:360-397 | handling one option token has the outcome `Scan` gives for it: the exception with the values so far, or the position after the consumed tokens and the new values |
| `Parser.CmdLineParser.Parse` | src/main/java/com/deng/joptions/JCmdLineParser.java:349-411 | the values become those of `ParseArgs`, starting from an empty map. The error is the one `ParseArgs` gives. On success the remaining options are set; on an exception the previous ones are kept. |
| `Parser.CmdLineParser.GetOptionValue` | src/main/java/com/deng/joptions/JCmdLineParser.java:322-330 | as written: returns `def` exactly when the option has no entry, and `null` otherwise; nothing changes |
| `Parser.CmdLineParser.GetOptionValues` | src/main/java/com/deng/joptions/JCmdLineParser.java:332-339 | as written: always returns an empty collection and changes nothing |
| `Parser.CmdLineParser.PollOptionValue` | src/main/java/com/deng/joptions/JCmdLineParser.java:322-330 | corrected: returns and removes the earliest recorded value; `def` when the option has no entry, `null` once its list is empty |
| `Parser.CmdLineParser.DrainOptionValues` | src/main/java/com/deng/joptions/JCmdLineParser.java:332-339 | corrected: returns all recorded values of the option in encounter order and leaves its list empty |
| `Parser.TwoInlineOccurrences` | src/main/java/com/deng/joptions/JCmdLineParser.java:361-366 | `--name=a --name=b` for a String option parses without error and records `a` then `b` |
| `Parser.RetrievalDiscrepancy` | src/main/java/com/deng/joptions/JCmdLineParser.java:328 | after `--name=a --name=b`, the as-written retrieval returns nothing, while the corrected one returns `a` then `b` |

## Findings

| source | as written | input that shows it | evidently intended | confidence | as-written member | corrected member |
|---|---|---|---|---|---|---|
| src/main/java/com/deng/joptions/JCmdLineParser.java:328 | `values.remove(0)` removes the key `0` from the map of lists. No entry has that key, so the call returns `null` and removes nothing. | register String option `name`, parse `--name=a --name=b`: `getOptionValue(name)` returns `null` and `getOptionValues(name)` returns an empty collection | `vs.remove(0)`: return and remove the earliest value, so that `getOptionValues` drains the list in order | high (not executed) | `Parser.CmdLineParser.GetOptionValues` | `Parser.CmdLineParser.DrainOptionValues` |

`Parser.RetrievalDiscrepancy` shows both halves on the same input, for any long form without `=` and any two values.

## Left out

- Double values: `DoubleOption.parseValue` delegates to the locale's `java.text.NumberFormat`. The model takes that collaborator as a parameter, `format: string -> Option<bv64>`, giving the IEEE 754 bit pattern of `doubleValue()` or `None` where it throws `ParseException`. Floating point itself is not modelled.
- Locale: `Locale.getDefault()` and the `parse(String[])` overload only feed Double parsing. The locale is folded into the `format` parameter.
- UTF-16: strings are sequences of Unicode scalar values, not of Java's UTF-16 code units. A token holding a character outside the Basic Multilingual Plane therefore has a different length and different characters in the model. For example, `-😀` is a bundle in Java and raises `UnknownSuboption` for the high surrogate, while the model treats it as a spelling. Likewise a short form outside the Basic Multilingual Plane, which a Java `char` cannot hold, is accepted by the model.
- Unicode digits: `new Integer` and `new Long` also accept non-ASCII decimal digits. The model accepts the ASCII digits `0`..`9` only.
- Exception messages: only the payload fields are modelled (option name, character, option and raw value), not the message strings.
- Java generics and unchecked casts: values of every kind share one `Value` type. A `ClassCastException` on retrieval, possible when two kinds share a long form, is not modelled.
- Option construction with a `null` long form (`IllegalArgumentException`) cannot arise in the model, since strings are never null.
- Object identity: options are values, so two definitions with equal fields are indistinguishable. The Java objects would be distinct.
- `getOptionValue(option)` is `GetOptionValue(option, None)`. `getRemainingOptions` and the option accessors are read as fields.
- Occurrence counting: no single lemma says that a list's length equals the number of occurrences of its option across a whole argument vector. Instead, each token form has its own lemma showing that it records exactly one value per occurrence, in order. These lemmas cover inline and separate values, short and long flags, bundles and repeated occurrences. `Grammar.ScanOnlyAppends` adds that nothing recorded is ever lost or reordered.
