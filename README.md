# Channel processor: the channel-file format, in Dafny

The channel processor keeps measured data in a plain-text *channel file*. Each
line is one channel: a name, then comma-separated value tokens. This project
models the processor's two text-format operations from `processor.py` and
proves their properties:

- **`read_channels`** reads the file and splits it into lines with
  `str.splitlines()`. It drops empty lines, splits each remaining line on
  `","`, and takes the first field as the channel name. The rest of the fields
  are the channel's raw value tokens. They are stored in a dict under that
  name, and a later line with the same name replaces the earlier values.
- **`write_channels`** reads the file, then appends one record: the name and
  the values joined with `", "`. When the file's text is non-empty and does not
  end in a line feed, the name is first prefixed with one. The prefixed name is
  inserted at the front of the caller's list, changing that list in place.

## How the model is laid out

- `text.dfy`, module `Text`: the pieces of Python's `str` that the code uses.
  These are `split` with a one-character separator (`Split`) and
  `sep.join` (`Join`), with the facts that connect them. Splitting gives one
  piece more than the separator count. Joining the pieces gives the original
  back. Splitting a join of comma-free pieces gives the pieces back.
- `lines.dfy`, module `Lines`: how text becomes lines.
  - `SplitLines` is `str.splitlines()` with its full set of line boundaries:
    `\n`, `\r`, `\r\n` (one boundary), `\x0b`, `\x0c`, `\x1c`, `\x1d`, `\x1e`,
    `\x85`, `\u2028` and `\u2029`.
  - `DropEmpty` is `filter(None, ...)`.
  - `UniversalNewlines` is the translation that a file opened in text mode
    applies on `read()`: every `\r\n` and every lone `\r` becomes `\n`.
- `tables.dfy`, module `Tables`: the dict that `read_channels` builds.
  - The dict is an insertion-ordered table: a key sequence plus a map. A
    Python dict keeps a key at its first-insertion position even when its value
    is replaced.
  - `Put` is `d[k] = v`.
  - `Build` assigns a sequence of parsed lines one after another into `{}`.
- `processor.dfy`, module `Processor`: the two operations.
  - `ChannelFile` is a class whose `contents` field holds the file's raw
    text.
  - `ChannelFile.ReadChannels` is the `read_channels` loop. It is proved equal
    to the specification function `ParseChannels` applied to the translated
    text.
  - `ChannelFile.WriteChannels` is `write_channels`. It changes only the file
    and the caller's list. The caller's list is a `ChannelList` object whose
    `items` field the method reassigns.
  - The lemmas state the read and write properties against `ParseChannels`
    and `AppendRecord`, including the write-then-read round trip.

`write_channels` checks the last character of the text *as read in text
mode*, not the last raw character. A file whose raw text ends in a lone `\r`
reads as ending in `\n`, so no line feed is added before the record
(`AppendRecordShape`).

## Model

| member | source | states |
|---|---|---|
| `Text.Split` | processor.py:61 | `line.split(",")` returns at least one piece, and no piece contains the separator |
| `Text.SplitCount` | processor.py:61 | a line splits into exactly one more piece than it has commas |
| `Text.JoinSplit` | processor.py:61 | joining the pieces of a split with the separator reproduces the line |
| `Text.SplitJoin` | processor.py:61 | splitting the join of a non-empty list of separator-free pieces gives the pieces back |
| `Text.JoinCons` | processor.py:79 | `", ".join([x] + xs)` is `x` followed by `", " + v` for each later `v` |
| `Text.SplitCommaSpaced` | processor.py:79 | splitting a `", "`-joined record on `","` gives the first field and every later field with one leading space |
| `Text.Join` | processor.py:79 | `", ".join` of an empty list is empty, and a non-empty join starts with its first element |
| `Lines.SplitLines` | processor.py:58-59 | no line returned by `splitlines()` contains a line boundary |
| `Lines.SplitLinesAt` | processor.py:58-59 | `splitlines()` cuts at each boundary: a boundary-free piece, then `\r\n` or any one boundary character (a `\r` not followed by `\n`), then the rest, gives the piece followed by the lines of the rest |
| `Lines.DropEmpty` | processor.py:58-59 | `filter(None, ...)` keeps a line iff it is non-empty, so a whitespace-only line is kept |
| `Lines.NonEmptyLines` | processor.py:58-59 | the lines iterated over are each non-empty and boundary-free, and there are no more of them than `splitlines()` returns |
| `Lines.UniversalNewlines` | processor.py:58-59 | text read in text mode contains no carriage return |
| `Lines.UniversalNewlinesAtReturn` | processor.py:58-59 | in text mode, a `\r\n` or a lone `\r` after `\r`-free text reads as one `\n`, and the text before it is kept |
| `Lines.SplitLinesUniversalNewlines` | processor.py:58-59 | the text-mode translation never changes the lines: `splitlines()` of the text as read equals `splitlines()` of the raw text |
| `Lines.SplitLinesAppendLine` | processor.py:79 | after text that is empty or ends in `\n`, a boundary-free non-empty record is exactly one more line |
| `Lines.NonEmptyLinesAppendNewline` | processor.py:74-77 | appending one `\n` never changes the non-empty lines, whatever the text ends in |
| `Lines.UniversalNewlinesAppend` | processor.py:70-79 | a record with no `\r` or `\n` appended to the raw text reads back as the old text as read, then the record unchanged |
| `Lines.UniversalNewlinesAppendNewline` | processor.py:77-79 | an `\n` appended after anything but `\r` reads back as one `\n` |
| `Lines.UniversalNewlinesLast` | processor.py:71-76 | the text as read is empty iff the raw text is, and it ends in `\n` iff the raw text ends in `\n` or `\r` |
| `Tables.Put` | processor.py:63 | dict assignment keeps the table well formed: every key listed once, list and map agree |
| `Tables.Empty` | processor.py:56 | `{}` has no keys and no entries, and is well formed |
| `Tables.PutEffect` | processor.py:63 | after `d[k] = v`, `k` maps to `v`, other keys keep their values and positions, and a new key goes last |
| `Tables.Build` | processor.py:56-63 | filling `{}` line by line always gives a well-formed table with no more keys than lines |
| `Tables.BuildKeys` | processor.py:56-63 | the keys are exactly the names assigned |
| `Tables.BuildLastWins` | processor.py:63 | a name's stored values are those of its last assignment |
| `Tables.BuildOrder` | processor.py:56-63 | the keys appear in the order in which their names first occur |
| `Processor.ParseLine` | processor.py:61-62 | the popped name has no comma, and there is one value per comma. Name and values joined with `","` give the line back. A line without a comma is a name with no values |
| `Processor.ParseChannels` | processor.py:56-63 | the table read from a text is well formed, has at most one key per non-empty line, and is `{}` when there is none |
| `Processor.ParseChannelsRaw` | processor.py:58-63 | the table read in text mode equals the table read from the raw text cut at every boundary, `\r\n` and `\r` included |
| `Processor.ChannelFile.ReadChannels` | processor.py:50-64 | the loop leaves the file unchanged and returns exactly `ParseChannels` of the text as read, a well-formed table |
| `Processor.ChannelFile.WriteChannels` | processor.py:66-80 | the caller's list becomes `[prefix + name]` followed by its old elements, unchanged. The file becomes `AppendRecord` of its old contents |
| `Processor.AppendRecord` | processor.py:70-79 | the old contents are a prefix of the new: nothing written before is changed or removed |
| `Processor.AppendRecordShape` | processor.py:71-79 | new contents = old + prefix + name + (`", "` + v) for each v. The prefix is `"\n"` exactly when old is non-empty and ends in neither `\n` nor `\r` |
| `Processor.RecordPrefix` | processor.py:74-77 | the prefix is empty or one `\n`; after it the text is empty or ends in `\n`; it is `\n` only when the text is non-empty and does not end in `\n` |
| `Processor.AppendedView` | processor.py:70-79 | for any record whose name and values hold no `\r` and no `\n`, the appended file reads in text mode as the old text as read, then the prefix, then the record |
| `Processor.NonEmptyLinesAfterRecord` | processor.py:74-79 | after the prefix, a boundary-free record is one more non-empty line, or none when it is empty |
| `Processor.RecordLine` | processor.py:79 | a record of comma- and boundary-free fields has no boundary, is empty only for an empty name with no values, and parses back to the name and the spaced values |
| `Processor.ParsedKeys` | processor.py:60-63 | a name is a key iff it is the first field of some non-empty line |
| `Processor.ParsedValues` | processor.py:60-63 | for a line that no later line shares its name with, the name maps to the line's fields after the first. That is one value per comma |
| `Processor.ParsedOrder` | processor.py:56-63 | table keys are in first-occurrence order of the names in the file |
| `Processor.RoundTrip` | processor.py:58-79 | after a write of comma- and boundary-free fields to any file, a read gives the old table with the name set to the values, each with one leading space. An empty name with no values changes nothing |
| `Processor.RoundTripValues` | processor.py:58-79 | after such a write, the name reads back as the spaced values and every other channel is unchanged |
| `Processor.ExampleFile` | processor.py:58-63 | the file `"X,1,2,4\n\n \n"` reads as `X` ↦ `["1","2","4"]` then `" "` ↦ `[]`. The blank line is dropped and the one-space line is kept |
| `Processor.ExampleWrite` | processor.py:71-79 | writing `Y` with `3`, `5`, `9` to `"X,1,2,4"` gives `"X,1,2,4\nY, 3, 5, 9"` |
| `Processor.ExampleTwoLines` | processor.py:58-63 | the file `"A,1\r\nB,2"`, and the same file with a form feed between the lines, read as `A` ↦ `["1"]` then `B` ↦ `["2"]` |

## Left out

- `parse_args` (processor.py:17-45) is command-line glue over `argparse`.
- The `__main__` driver (processor.py:83-89) only wires file paths to the two
  operations.
- `processor.py` has no parameter-file reader and no arithmetic on the value
  tokens, so the model has neither.
- Opening, closing and failing to open files (`open`, `IOError`) are left out.
  The file is the `contents` field of a `ChannelFile`, and reading or writing
  it cannot fail in the model.
- Byte-level text decoding and encoding are left out. The file's text is a
  sequence of Unicode characters.
- The translation of `\n` to the platform line separator on writing is left
  out. Writes are taken as on POSIX, where that translation does nothing.
- `'%s' % x` (processor.py:79) is the identity on strings, and the model's
  values are always strings. Non-string list elements are not modelled.
- Lists held in the table as shared Python objects are left out. The table
  stores values, so aliasing between the dict's lists and a list later passed
  to `write_channels` is not modelled.
- `ChannelFile.ReadChannels` keeps the dict in local variables (a key sequence
  and a map) that the loop reassigns. The dict is created and returned inside
  `read_channels`, so no other code observes it while the loop runs.
