/**
 The channel processor's text-format handling: reading the channel file into
 a table of named value tokens, and appending one `", "`-separated record to
 it. The file on disk is a `ChannelFile` object whose `contents` field holds
 its raw text; the caller's Python list is a `ChannelList` object.
 */
module Processor {
  import opened Text
  import opened Lines
  import opened Tables

  /**
   One line of the channel file, split on `","`: the first field is the
   channel name (`pop(0)`) and the remaining fields, unstripped, are its values.
   */
  function ParseLine(line: string): (e: Entry)
    ensures ',' !in e.name
    ensures NoneContain(e.values, ',')
    ensures |e.values| == Count(line, ',')
    ensures Join(",", [e.name] + e.values) == line
    ensures ',' !in line ==> e.name == line && e.values == []
  {
    var fields := Split(line, ',');
    SplitCount(line, ',');
    JoinSplit(line, ',');
    assert ',' !in line ==> fields == [line] by {
      if ',' !in line {
        SplitAbsent(line, ',');
      }
    }
    assert [fields[0]] + fields[1..] == fields;
    Entry(fields[0], fields[1..])
  }

  /** Every line parsed, in order. */
  function ParseLines(lines: seq<string>): (es: seq<Entry>)
    ensures |es| == |lines|
    ensures forall k :: 0 <= k < |lines| ==> es[k] == ParseLine(lines[k])
  {
    seq(|lines|, k requires 0 <= k < |lines| => ParseLine(lines[k]))
  }

  /**
   The table `read_channels` returns for the (newline-translated) text of the
   channel file: each non-empty line assigned in turn into an empty dict.
   */
  function ParseChannels(view: string): (t: Table)
    ensures Valid(t)
    ensures |t.keys| <= |NonEmptyLines(view)|
    ensures NonEmptyLines(view) == [] ==> t == Empty()
  {
    Build(ParseLines(NonEmptyLines(view)))
  }

  /**
   `"\n"` when the text read is non-empty and its last character is not a line
   feed: at most one line feed, put in front of the name so that the record
   starts a line of its own (`RecordPrefixLines`).
   */
  function RecordPrefix(view: string): (p: string)
    ensures p == "" || p == "\n"
    ensures var s := view + p; s == [] || s[|s| - 1] == '\n'
    ensures p == "\n" ==> view != [] && view[|view| - 1] != '\n'
  {
    if |view| > 0 && view[|view| - 1] != '\n' then "\n" else ""
  }

  /**
   After the prefix the text is empty or ends in a line feed, and the non-empty
   lines are those of the text alone.
   */
  lemma RecordPrefixLines(view: string)
    ensures var s := view + RecordPrefix(view);
      (s == [] || s[|s| - 1] == '\n') && NonEmptyLines(s) == NonEmptyLines(view)
  {
    if RecordPrefix(view) == "\n" {
      NonEmptyLinesAppendNewline(view);
    } else {
      assert view + "" == view;
    }
  }

  /**
   The raw contents of the channel file after `write_channels(name, values, ...)`:
   the old contents followed by the record `", ".join([prefix + name] + values)`.
   The prefix is decided on the text as read, after newline translation.
   */
  function AppendRecord(raw: string, name: string, values: seq<string>): (r: string)
    ensures |raw| <= |r| && r[..|raw|] == raw
  {
    raw + Join(", ", [RecordPrefix(UniversalNewlines(raw)) + name] + values)
  }

  /** A name and values that a record can hold and still be read back as written. */
  ghost predicate Plain(name: string, values: seq<string>)
  {
    && ',' !in name && NoLineBreak(name)
    && NoneContain(values, ',')
    && (forall k :: 0 <= k < |values| ==> NoLineBreak(values[k]))
  }

  /** The channel file, holding its raw text. */
  class ChannelFile {
    var contents: string

    constructor (contents: string)
      ensures this.contents == contents
    {
      this.contents := contents;
    }

    /**
     `read_channels`: split the text read into lines, drop the empty ones, and
     assign each line's values to its name; a later line with the same name
     replaces the values of an earlier one but not its position.
     */
    method ReadChannels() returns (channels: Table)
      ensures Valid(channels)
      ensures channels == ParseChannels(UniversalNewlines(contents))
    {
      var lines := NonEmptyLines(UniversalNewlines(contents));
      ghost var parsed := ParseLines(lines);
      var keys: seq<string> := [];
      var entries: map<string, seq<string>> := map[];
      for i := 0 to |lines|
        invariant Table(keys, entries) == Build(parsed[..i])
      {
        var channelData := Split(lines[i], ',');
        var channelName := channelData[0];
        channelData := channelData[1..];
        ReadStep(parsed, i, lines[i]);
        ghost var before := Table(keys, entries);
        if channelName !in entries {
          keys := keys + [channelName];
        }
        entries := entries[channelName := channelData];
        assert Table(keys, entries) == Put(before, channelName, channelData);
      }
      assert parsed[..|lines|] == parsed;
      channels := Table(keys, entries);
    }

    /**
     `write_channels`: read the whole text; if it is non-empty and does not end
     in a line feed, prefix the name with one; insert the (prefixed) name at the
     front of the caller's list; append the list joined with `", "`.
     */
    method WriteChannels(name: string, data: ChannelList)
      modifies this, data
      ensures data.items == [RecordPrefix(UniversalNewlines(old(contents))) + name] + old(data.items)
      ensures contents == AppendRecord(old(contents), name, old(data.items))
    {
      var lines := UniversalNewlines(contents);
      var channelName := name;
      if |lines| > 0 {
        var lastLine := lines[|lines| - 1];
        if lastLine != '\n' {
          channelName := "\n" + channelName;
        }
      }
      assert channelName == RecordPrefix(lines) + name;
      data.items := [channelName] + data.items;
      contents := contents + Join(", ", data.items);
    }
  }

  /** The table after line `i` is the table before it with that line's fields put in. */
  lemma ReadStep(parsed: seq<Entry>, i: nat, line: string)
    requires i < |parsed| && parsed[i] == ParseLine(line)
    ensures var fields := Split(line, ',');
      Build(parsed[..i + 1]) == Put(Build(parsed[..i]), fields[0], fields[1..])
  {
    assert parsed[..i + 1] == parsed[..i] + [parsed[i]];
    BuildSnoc(parsed[..i], parsed[i]);
  }

  /** The caller's list of value tokens, which `write_channels` changes in place. */
  class ChannelList {
    var items: seq<string>

    constructor (items: seq<string>)
      ensures this.items == items
    {
      this.items := items;
    }
  }

  /** The keys of the table are exactly the first fields of the non-empty lines. */
  lemma ParsedKeys(view: string)
    ensures forall n :: n in ParseChannels(view).entries <==>
      exists k :: 0 <= k < |NonEmptyLines(view)| && ParseLine(NonEmptyLines(view)[k]).name == n
  {
    var lines := NonEmptyLines(view);
    var es := ParseLines(lines);
    BuildKeys(es);
    forall n
      ensures n in Names(es) <==> exists k :: 0 <= k < |lines| && ParseLine(lines[k]).name == n
    {
      if n in Names(es) {
        var k :| 0 <= k < |es| && Names(es)[k] == n;
        assert ParseLine(lines[k]).name == n;
      }
    }
  }

  /**
   Last writer wins: a non-empty line that no later non-empty line shares its
   name with gives that name's values, one per comma of the line.
   */
  lemma ParsedValues(view: string, k: nat)
    requires k < |NonEmptyLines(view)|
    requires forall j :: k < j < |NonEmptyLines(view)| ==>
      ParseLine(NonEmptyLines(view)[j]).name != ParseLine(NonEmptyLines(view)[k]).name
    ensures ParseLine(NonEmptyLines(view)[k]).name in ParseChannels(view).entries
    ensures ParseChannels(view).entries[ParseLine(NonEmptyLines(view)[k]).name]
      == Split(NonEmptyLines(view)[k], ',')[1..]
    ensures |ParseChannels(view).entries[ParseLine(NonEmptyLines(view)[k]).name]|
      == Count(NonEmptyLines(view)[k], ',')
  {
    var es := ParseLines(NonEmptyLines(view));
    BuildLastWins(es, k);
  }

  /** The keys are in the order in which their names first occur in the file. */
  lemma ParsedOrder(view: string)
    ensures InFirstOccurrenceOrder(ParseChannels(view).keys, Names(ParseLines(NonEmptyLines(view))))
  {
    BuildOrder(ParseLines(NonEmptyLines(view)));
  }

  lemma PrecededNoLineBreak(sep: string, xs: seq<string>)
    requires NoLineBreak(sep)
    requires forall k :: 0 <= k < |xs| ==> NoLineBreak(xs[k])
    ensures NoLineBreak(Preceded(sep, xs))
    decreases |xs|
  {
    if xs != [] {
      PrecededNoLineBreak(sep, xs[1..]);
    }
  }

  lemma PrecededAbsent(sep: string, xs: seq<string>, c: char)
    requires c !in sep
    requires NoneContain(xs, c)
    ensures c !in Preceded(sep, xs)
    decreases |xs|
  {
    if xs != [] {
      assert NoneContain(xs[1..], c);
      PrecededAbsent(sep, xs[1..], c);
    }
  }

  /**
   The new contents are the old ones, then a line feed exactly when the old
   contents are non-empty and end in neither a line feed nor a carriage return
   (either reads back as a line feed), then the name and every value preceded
   by `", "`.
   */
  lemma AppendRecordShape(raw: string, name: string, values: seq<string>)
    ensures AppendRecord(raw, name, values) ==
      raw + (if raw != [] && raw[|raw| - 1] !in "\n\r" then "\n" else "") + name + Preceded(", ", values)
  {
    var p := RecordPrefix(UniversalNewlines(raw));
    UniversalNewlinesLast(raw);
    JoinCons(", ", p + name, values);
  }

  /**
   The prefix, in terms of the raw contents: a line feed exactly when they are
   non-empty and end in neither a line feed nor a carriage return (either reads
   back as a line feed).
   */
  lemma RecordPrefixRaw(raw: string)
    ensures RecordPrefix(UniversalNewlines(raw)) ==
      if raw != [] && raw[|raw| - 1] !in "\n\r" then "\n" else ""
  {
    UniversalNewlinesLast(raw);
  }

  /** The new contents are the old ones, the prefix, and the record. */
  lemma AppendRecordParts(raw: string, name: string, values: seq<string>)
    ensures AppendRecord(raw, name, values)
      == raw + RecordPrefix(UniversalNewlines(raw)) + (name + Preceded(", ", values))
  {
    var p, t := RecordPrefix(UniversalNewlines(raw)), Preceded(", ", values);
    JoinCons(", ", p + name, values);
    assert AppendRecord(raw, name, values) == raw + ((p + name) + t);
    assert raw + ((p + name) + t) == raw + p + (name + t);
  }

  /** The prefix and a record without carriage returns and line feeds read back as written. */
  lemma PrefixedRecordView(raw: string, rec: string)
    requires '\r' !in rec && '\n' !in rec
    ensures var view := UniversalNewlines(raw);
      UniversalNewlines(raw + RecordPrefix(view) + rec) == view + RecordPrefix(view) + rec
  {
    var view := UniversalNewlines(raw);
    if RecordPrefix(view) == "" {
      assert raw + "" + rec == raw + rec;
      UniversalNewlinesAppend(raw, rec);
    } else {
      assert view != [] && view[|view| - 1] != '\n';
      UniversalNewlinesLast(raw);
      UniversalNewlinesAppendNewline(raw);
      UniversalNewlinesAppend(raw + "\n", rec);
    }
  }

  /** What the translated text looks like after a record is appended. */
  lemma AppendedView(raw: string, name: string, values: seq<string>)
    requires '\r' !in name && '\n' !in name
    requires NoneContain(values, '\r') && NoneContain(values, '\n')
    ensures UniversalNewlines(AppendRecord(raw, name, values))
      == UniversalNewlines(raw) + RecordPrefix(UniversalNewlines(raw)) + (name + Preceded(", ", values))
  {
    var rec := name + Preceded(", ", values);
    PrecededAbsent(", ", values, '\r');
    PrecededAbsent(", ", values, '\n');
    assert '\r' !in rec && '\n' !in rec;
    AppendRecordParts(raw, name, values);
    PrefixedRecordView(raw, rec);
  }

  /** A name and values without line boundaries hold no carriage return and no line feed. */
  lemma PlainNoNewline(name: string, values: seq<string>)
    requires Plain(name, values)
    ensures '\r' !in name && '\n' !in name
    ensures NoneContain(values, '\r') && NoneContain(values, '\n')
  {
  }

  /** Reading in text mode gives the same table as cutting the raw text at its boundaries, "\r\n" and "\r" included. */
  lemma ParseChannelsRaw(raw: string)
    ensures ParseChannels(UniversalNewlines(raw)) == ParseChannels(raw)
  {
    SplitLinesUniversalNewlines(raw);
  }

  /** Parsing one more line is putting its entry into the table parsed so far. */
  lemma ParseLinesSnoc(lines: seq<string>, line: string)
    ensures Build(ParseLines(lines + [line])) == Put(Build(ParseLines(lines)), ParseLine(line).name, ParseLine(line).values)
  {
    assert ParseLines(lines + [line]) == ParseLines(lines) + [ParseLine(line)];
    BuildSnoc(ParseLines(lines), ParseLine(line));
  }

  /** A record without boundaries, appended after the prefix, is read back as one more non-empty line. */
  lemma NonEmptyLinesAfterRecord(view: string, rec: string)
    requires NoLineBreak(rec)
    ensures NonEmptyLines(view + RecordPrefix(view) + rec)
      == NonEmptyLines(view) + (if rec == [] then [] else [rec])
  {
    var p := RecordPrefix(view);
    var base := view + p;
    assert NonEmptyLines(base) == NonEmptyLines(view) by {
      if p == "\n" {
        NonEmptyLinesAppendNewline(view);
      } else {
        assert base == view;
      }
    }
    assert view + p + rec == base + rec;
    if rec == [] {
      assert base + rec == base;
    } else {
      SplitLinesAppendLine(base, rec);
      DropEmptyAppend(SplitLines(base), [rec]);
      assert DropEmpty([rec]) == [rec];
    }
  }

  /** A record of boundary-free fields holds no boundary. */
  lemma RecordNoLineBreak(name: string, values: seq<string>)
    requires Plain(name, values)
    ensures NoLineBreak(name + Preceded(", ", values))
  {
    var rec := name + Preceded(", ", values);
    PrecededNoLineBreak(", ", values);
    forall k | 0 <= k < |rec| ensures !IsLineBreak(rec[k]) {
      if k >= |name| {
        assert rec[k] == Preceded(", ", values)[k - |name|];
      }
    }
  }

  /** The record of a name and its values, without its prefix, and what reading it gives. */
  lemma RecordLine(name: string, values: seq<string>)
    requires Plain(name, values)
    ensures NoLineBreak(name + Preceded(", ", values))
    ensures (name + Preceded(", ", values) == []) == (name == "" && values == [])
    ensures ParseLine(name + Preceded(", ", values)) == Entry(name, Spaced(values))
  {
    RecordNoLineBreak(name, values);
    if values != [] {
      assert |Preceded(", ", values)| >= 2;
    }
    SplitCommaSpaced(name, values);
  }

  /** The non-empty lines after a record is appended: those before, then the record unless it is empty. */
  lemma AppendedLines(raw: string, name: string, values: seq<string>)
    requires Plain(name, values)
    ensures var rec := name + Preceded(", ", values);
      NonEmptyLines(UniversalNewlines(AppendRecord(raw, name, values)))
        == NonEmptyLines(UniversalNewlines(raw)) + (if rec == [] then [] else [rec])
  {
    var view := UniversalNewlines(raw);
    var rec := name + Preceded(", ", values);
    PlainNoNewline(name, values);
    AppendedView(raw, name, values);
    RecordNoLineBreak(name, values);
    assert UniversalNewlines(AppendRecord(raw, name, values)) == view + RecordPrefix(view) + rec;
    NonEmptyLinesAfterRecord(view, rec);
  }

  /**
   Round trip: after a record whose name and values hold no comma and no line
   boundary is appended to any channel file, reading the file gives the table
   read before with the name now mapped to the values, each with the one
   leading space that the `", "` separator leaves behind after splitting on
   `","`. A record with an empty name and no values adds nothing readable.
   */
  lemma RoundTrip(raw: string, name: string, values: seq<string>)
    requires Plain(name, values)
    ensures ParseChannels(UniversalNewlines(AppendRecord(raw, name, values))) ==
      if name == "" && values == [] then ParseChannels(UniversalNewlines(raw))
      else Put(ParseChannels(UniversalNewlines(raw)), name, Spaced(values))
  {
    var lines := NonEmptyLines(UniversalNewlines(raw));
    var rec := name + Preceded(", ", values);
    var after := UniversalNewlines(AppendRecord(raw, name, values));
    AppendedLines(raw, name, values);
    RecordLine(name, values);
    if rec == [] {
      assert NonEmptyLines(after) == lines;
    } else {
      assert NonEmptyLines(after) == lines + [rec];
      ParseLinesSnoc(lines, rec);
    }
  }

  /** After the round trip, the name maps to the spaced values and every other channel is unchanged. */
  lemma RoundTripValues(raw: string, name: string, values: seq<string>)
    requires Plain(name, values)
    requires name != "" || values != []
    ensures var after := ParseChannels(UniversalNewlines(AppendRecord(raw, name, values)));
      && name in after.entries
      && after.entries[name] == Spaced(values)
      && forall n :: n != name && n in ParseChannels(UniversalNewlines(raw)).entries ==>
           n in after.entries && after.entries[n] == ParseChannels(UniversalNewlines(raw)).entries[n]
  {
    RoundTrip(raw, name, values);
  }

  /** A line followed by a blank line is one non-empty line. */
  lemma LineThenBlank(x: string)
    requires x != [] && NoLineBreak(x)
    ensures NonEmptyLines(x + "\n\n") == [x]
  {
    SplitLinesSingle(x);
    assert DropEmpty([x]) == [x];
    NonEmptyLinesAppendNewline(x);
    NonEmptyLinesAppendNewline(x + "\n");
    assert x + "\n\n" == x + "\n" + "\n";
  }

  /** Two lines with a blank line between them are two non-empty lines. */
  lemma BlankLineBetween(x: string, y: string)
    requires x != [] && NoLineBreak(x)
    requires y != [] && NoLineBreak(y)
    ensures NonEmptyLines(x + "\n\n" + y + "\n") == [x, y]
  {
    var s2 := x + "\n\n";
    var s3 := s2 + y;
    LineThenBlank(x);
    SplitLinesAppendLine(s2, y);
    DropEmptyAppend(SplitLines(s2), [y]);
    assert DropEmpty([y]) == [y];
    NonEmptyLinesAppendNewline(s3);
  }

  /** The non-empty lines of a small file with a blank line and a line holding one space. */
  lemma ExampleLines(view: string)
    requires view == "X,1,2,4\n\n \n"
    ensures NonEmptyLines(view) == ["X,1,2,4", " "]
  {
    assert NoLineBreak("X,1,2,4") && NoLineBreak(" ");
    assert view == "X,1,2,4" + "\n\n" + " " + "\n";
    BlankLineBetween("X,1,2,4", " ");
  }

  /** The fields of the line "X,1,2,4". */
  lemma ExampleFields(line: string)
    requires line == "X,1,2,4"
    ensures ParseLine(line) == Entry("X", ["1", "2", "4"])
  {
    var xs := ["X", "1", "2", "4"];
    assert Join(",", xs[3..]) == "4";
    assert Join(",", xs[2..]) == "2,4";
    assert Join(",", xs[1..]) == "1,2,4";
    assert Join(",", xs) == line;
    SplitJoin(xs, ',');
  }

  /** A line holding one comma is a name and one value. */
  lemma ParseLinePair(line: string, name: string, value: string)
    requires ',' !in name && ',' !in value
    requires line == name + "," + value
    ensures ParseLine(line) == Entry(name, [value])
  {
    assert Join(",", [name, value]) == line;
    SplitJoin([name, value], ',');
  }

  /** The entries of the small file below: the blank line gives none. */
  lemma ExampleEntries(view: string)
    requires view == "X,1,2,4\n\n \n"
    ensures ParseLines(NonEmptyLines(view)) == [Entry("X", ["1", "2", "4"]), Entry(" ", [])]
  {
    ExampleLines(view);
    ExampleParsed("X,1,2,4", " ");
  }

  /** Parsing two lines is parsing each of them. */
  lemma ParseTwoLines(x: string, y: string)
    ensures ParseLines([x, y]) == [ParseLine(x), ParseLine(y)]
  {
  }

  /** A line without a comma is a channel with no values. */
  lemma ParseLineNoComma(line: string)
    requires ',' !in line
    ensures ParseLine(line) == Entry(line, [])
  {
  }

  /** The lines "X,1,2,4" and " " parse to channel "X" with three tokens and channel " " with none. */
  lemma ExampleParsed(x: string, y: string)
    requires x == "X,1,2,4" && y == " "
    ensures ParseLines([x, y]) == [Entry("X", ["1", "2", "4"]), Entry(" ", [])]
  {
    ParseTwoLines(x, y);
    ExampleFields(x);
    ParseLineNoComma(y);
  }

  /**
   A small channel file: the blank line contributes nothing, the line holding
   one space is a channel named " " with no values, and the line "X,1,2,4"
   gives channel "X" the tokens "1", "2" and "4".
   */
  lemma ExampleFile(view: string)
    requires view == "X,1,2,4\n\n \n"
    ensures ParseChannels(view) == Table(["X", " "], map["X" := ["1", "2", "4"], " " := []])
  {
    ExampleEntries(view);
    BuildTwo(Entry("X", ["1", "2", "4"]), Entry(" ", []));
  }

  /** Two lines separated by "\r\n" or by a form feed are two lines. */
  lemma ExampleTwoLinesSplit(raw: string, sep: string)
    requires sep == "\r\n" || sep == "\U{0C}"
    requires raw == "A,1" + sep + "B,2"
    ensures NonEmptyLines(raw) == ["A,1", "B,2"]
  {
    var a, b := "A,1", "B,2";
    assert NoLineBreak(a) && NoLineBreak(b);
    SplitLinesAt(a, sep, b);
    SplitLinesSingle(b);
    assert SplitLines(raw) == [a, b];
    assert DropEmpty([a, b]) == [a, b] by {
      assert [a, b][1..] == [b];
    }
  }

  /** The lines "A,1" and "B,2" give two channels with one value each. */
  lemma ExampleTwoChannels(lines: seq<string>)
    requires lines == ["A,1", "B,2"]
    ensures Build(ParseLines(lines)) == Table(["A", "B"], map["A" := ["1"], "B" := ["2"]])
  {
    ParseLinePair(lines[0], "A", "1");
    ParseLinePair(lines[1], "B", "2");
    var x, y := Entry("A", ["1"]), Entry("B", ["2"]);
    assert ParseLines(lines) == [x, y];
    BuildTwo(x, y);
  }

  /**
   A file whose two lines are separated by "\r\n" (a file written on Windows)
   or by a form feed reads as two channels.
   */
  lemma ExampleTwoLines(raw: string, sep: string)
    requires sep == "\r\n" || sep == "\U{0C}"
    requires raw == "A,1" + sep + "B,2"
    ensures ParseChannels(UniversalNewlines(raw)) == Table(["A", "B"], map["A" := ["1"], "B" := ["2"]])
  {
    ParseChannelsRaw(raw);
    ExampleTwoLinesSplit(raw, sep);
    ExampleTwoChannels(NonEmptyLines(raw));
  }

  lemma BuildTwo(x: Entry, y: Entry)
    requires x.name != y.name
    ensures Build([x, y]) == Table([x.name, y.name], map[x.name := x.values, y.name := y.values])
  {
    assert [x, y][..1] == [x] && [x][..0] == [];
    var t1 := Build([x]);
    assert t1 == Table([x.name], map[x.name := x.values]);
  }

  /**
   Appending channel "Y" with tokens "3", "5", "9" to a file whose last line
   has no line feed puts the record on a line of its own.
   */
  lemma ExampleWrite(raw: string)
    requires raw == "X,1,2,4"
    ensures AppendRecord(raw, "Y", ["3", "5", "9"]) == "X,1,2,4\nY, 3, 5, 9"
  {
    var values := ["3", "5", "9"];
    AppendRecordShape(raw, "Y", values);
    assert raw[|raw| - 1] == '4';
    assert Preceded(", ", values[2..]) == ", 9";
    assert Preceded(", ", values[1..]) == ", 5, 9";
    assert Preceded(", ", values) == ", 3, 5, 9";
  }
}
