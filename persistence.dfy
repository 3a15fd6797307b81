/**
 * The flat-file format of the store: one record per line, fields separated
 * by single spaces (tvmodule.cpp writers), and the loader's per-line parse
 * (main.cpp), which reads the fields back with `>>` and takes the hour and
 * the minute from fixed positions of the time token.
 */
module Persistence {
  import opened Wrappers
  import opened Text
  import opened Numbers
  import opened Records

  /** Fields written one after another with a single space between them. */
  function Join(fields: seq<string>): string
  {
    if |fields| == 0 then ""
    else if |fields| == 1 then fields[0]
    else fields[0] + " " + Join(fields[1..])
  }

  /** Length of the longest prefix of `s` that holds no whitespace. */
  function WordRun(s: string): (n: nat)
    ensures n <= |s|
    ensures NoWhitespace(s[..n])
    ensures n < |s| ==> IsSpace(s[n])
  {
    if s != [] && !IsSpace(s[0]) then 1 + WordRun(s[1..]) else 0
  }

  /** The words of a line, in order, as successive `>>` into strings read them. */
  function Tokens(s: string): (r: seq<string>)
    ensures forall i :: 0 <= i < |r| ==> r[i] != [] && NoWhitespace(r[i])
    decreases |s|
  {
    if s == [] then []
    else if IsSpace(s[0]) then Tokens(s[1..])
    else
      var n := WordRun(s);
      [s[..n]] + Tokens(s[n..])
  }

  /** The i-th word, or the empty string a `>>` leaves when the line has run out. */
  function Field(tokens: seq<string>, i: nat): string
  {
    if i < |tokens| then tokens[i] else ""
  }

  /** The zero-padded "HH:MM" field. */
  function TimeText(hour: int, minute: int): string
  {
    TwoDigits(hour) + ":" + TwoDigits(minute)
  }

  /** One line of the show file: name category HH:MM duration day code. */
  function ShowLine(s: Show): string
  {
    Join([s.name, s.category, TimeText(s.startHour, s.startMinute),
          IntToString(s.duration), s.dayOfWeek, s.channelCode])
  }

  /** One line of the channel file: code name country. */
  function ChannelLine(c: Channel): string
  {
    Join([c.code, c.name, c.originCountry])
  }

  /** The whole show file, as the rewriting operations produce it. */
  function ShowLines(programs: seq<Show>): (r: seq<string>)
    ensures |r| == |programs|
    ensures forall i {:trigger r[i]} :: 0 <= i < |programs| ==> r[i] == ShowLine(programs[i])
  {
    if programs == [] then [] else ShowLines(programs[..|programs| - 1]) + [ShowLine(programs[|programs| - 1])]
  }

  /** The whole channel file. */
  function ChannelLines(channels: seq<Channel>): (r: seq<string>)
    ensures |r| == |channels|
    ensures forall i {:trigger r[i]} :: 0 <= i < |channels| ==> r[i] == ChannelLine(channels[i])
  {
    if channels == [] then [] else ChannelLines(channels[..|channels| - 1]) + [ChannelLine(channels[|channels| - 1])]
  }

  /** `stoi` of characters 0-1 of the time word. */
  function ReadHour(time: string): Option<int>
  {
    Stoi(Substr(time, 0, 2).value)
  }

  /** `stoi` of characters 3-4 of the time word; None also where `substr` throws. */
  function ReadMinute(time: string): (r: Option<int>)
  {
    match Substr(time, 3, 2)
    case None => None
    case Some(text) => Stoi(text)
  }

  /**
   * A show from the words of its line: name, category, time, duration, day
   * and code in that order. None where `stoi` or `substr` would throw, which
   * ends the program. None also where the duration word is missing or is not
   * a whole integer: there the program's `>>` would still store a record
   * (the duration left unset or 0 and the later fields empty, or "12abc"
   * read as 12 with "abc" shifted into the day), which this model does not
   * follow.
   */
  function ShowFromWords(t: seq<string>): (r: Option<Show>)
  {
    var time := Field(t, 2);
    var hour := ReadHour(time);
    var minute := ReadMinute(time);
    var duration := if |t| > 3 then ReadInt(t[3]) else None;
    if hour.None? || minute.None? || duration.None? then None
    else Some(Show(Field(t, 0), Field(t, 1), hour.value, minute.value, duration.value, Field(t, 4), Field(t, 5)))
  }

  /** One show line read back (the body of the loader's first loop). */
  function ParseShowLine(line: string): (r: Option<Show>)
  {
    ShowFromWords(Tokens(line))
  }

  /** One channel line read back: code, name and country, in that order. */
  function ParseChannelLine(line: string): (r: Channel)
    ensures NoWhitespace(r.code) && NoWhitespace(r.name) && NoWhitespace(r.originCountry)
  {
    var t := Tokens(line);
    Channel(Field(t, 0), Field(t, 1), Field(t, 2))
  }

  /** The show file read back: one record per line in file order, or None if any line fails. */
  function ParseShowLines(lines: seq<string>): (r: Option<seq<Show>>)
    ensures r.None? ==> exists i :: 0 <= i < |lines| && ParseShowLine(lines[i]).None?
    ensures r.Some? ==> |r.value| == |lines|
    ensures r.Some? ==> forall i {:trigger r.value[i]} :: 0 <= i < |lines| ==> Some(r.value[i]) == ParseShowLine(lines[i])
  {
    if lines == [] then Some([])
    else
      var front := lines[..|lines| - 1];
      assert forall i :: 0 <= i < |front| ==> front[i] == lines[i];
      assert lines == front + [lines[|lines| - 1]];
      match ParseShowLines(front)
      case None => None
      case Some(ps) =>
        match ParseShowLine(lines[|lines| - 1])
        case None => None
        case Some(s) => Some(ps + [s])
  }

  /** Reading one more line of the show file appends that line's record. */
  lemma ParseShowLinesExtend(lines: seq<string>, i: nat, loaded: seq<Show>, s: Show)
    requires i < |lines| && ParseShowLines(lines[..i]) == Some(loaded) && ParseShowLine(lines[i]) == Some(s)
    ensures ParseShowLines(lines[..i + 1]) == Some(loaded + [s])
  {
    ParseShowLinesPrefix(lines, i);
  }

  /** The first `i + 1` lines read back: the first `i` records, then line `i`'s, if all read. */
  lemma ParseShowLinesPrefix(lines: seq<string>, i: nat)
    requires i < |lines|
    ensures ParseShowLines(lines[..i + 1]) ==
      (if ParseShowLines(lines[..i]).None? || ParseShowLine(lines[i]).None? then None
       else Some(ParseShowLines(lines[..i]).value + [ParseShowLine(lines[i]).value]))
  {
    var ext := lines[..i + 1];
    assert ext[..|ext| - 1] == lines[..i];
    assert ext[|ext| - 1] == lines[i];
  }

  /** One line that does not read back makes the whole show file fail. */
  lemma {:induction false} ParseShowLinesFailsAt(lines: seq<string>, i: nat)
    requires i < |lines| && ParseShowLine(lines[i]).None?
    ensures ParseShowLines(lines).None?
  {
    var front := lines[..|lines| - 1];
    if i < |lines| - 1 {
      assert front[i] == lines[i];
      ParseShowLinesFailsAt(front, i);
    }
  }

  /** The channel file read back: one record per line in file order. */
  function ParseChannelLines(lines: seq<string>): (r: seq<Channel>)
    ensures |r| == |lines|
    ensures forall i {:trigger r[i]} :: 0 <= i < |lines| ==> r[i] == ParseChannelLine(lines[i])
  {
    if lines == [] then [] else ParseChannelLines(lines[..|lines| - 1]) + [ParseChannelLine(lines[|lines| - 1])]
  }

  /** A show the file format can carry: single-word text fields and a valid clock time. */
  predicate WellFormedShow(s: Show)
  {
    && s.name != [] && NoWhitespace(s.name)
    && s.category != [] && NoWhitespace(s.category)
    && s.dayOfWeek != [] && NoWhitespace(s.dayOfWeek)
    && s.channelCode != [] && NoWhitespace(s.channelCode)
    && 0 <= s.startHour <= 23 && 0 <= s.startMinute <= 59
  }

  /** A channel the file format can carry: single-word fields. */
  predicate WellFormedChannel(c: Channel)
  {
    && c.code != [] && NoWhitespace(c.code)
    && c.name != [] && NoWhitespace(c.name)
    && c.originCountry != [] && NoWhitespace(c.originCountry)
  }

  lemma {:induction false} WordRunOfWord(w: string, rest: string)
    requires NoWhitespace(w)
    requires rest == [] || IsSpace(rest[0])
    ensures WordRun(w + rest) == |w|
  {
    if w == [] {
      assert w + rest == rest;
    } else {
      assert (w + rest)[1..] == w[1..] + rest;
      WordRunOfWord(w[1..], rest);
    }
  }

  /** A line of nothing but whitespace has no words. */
  lemma {:induction false} TokensOfBlank(ws: string)
    requires forall i :: 0 <= i < |ws| ==> IsSpace(ws[i])
    ensures Tokens(ws) == []
  {
    if ws != [] {
      TokensOfBlank(ws[1..]);
    }
  }

  /**
   * Any run of whitespace (spaces, tabs, several of them) before a word is
   * skipped, and the word ends at the next whitespace character.
   */
  lemma {:induction false} TokensOfWord(ws: string, w: string, rest: string)
    requires forall i :: 0 <= i < |ws| ==> IsSpace(ws[i])
    requires w != [] && NoWhitespace(w)
    requires rest == [] || IsSpace(rest[0])
    ensures Tokens(ws + w + rest) == [w] + Tokens(rest)
  {
    if ws == [] {
      var s := w + rest;
      assert ws + w + rest == s;
      WordRunOfWord(w, rest);
      assert s[..|w|] == w && s[|w|..] == rest;
    } else {
      assert (ws + w + rest)[1..] == ws[1..] + w + rest;
      TokensOfWord(ws[1..], w, rest);
    }
  }

  /** Reading words back from what `Join` wrote gives the same words. */
  lemma {:induction false} TokensOfJoin(fields: seq<string>)
    requires forall i :: 0 <= i < |fields| ==> fields[i] != [] && NoWhitespace(fields[i])
    ensures Tokens(Join(fields)) == fields
  {
    if |fields| == 1 {
      var w := fields[0];
      WordRunOfWord(w, []);
      assert w + [] == w;
      assert w[..|w|] == w && w[|w|..] == [];
    } else if |fields| > 1 {
      var w := fields[0];
      var tail := Join(fields[1..]);
      var s := w + " " + tail;
      assert s == w + (" " + tail);
      WordRunOfWord(w, " " + tail);
      assert s[..|w|] == w;
      assert s[|w|..] == " " + tail;
      assert (" " + tail)[1..] == tail;
      TokensOfJoin(fields[1..]);
      assert fields == [w] + fields[1..];
    }
  }

  /** The time field is one word of five characters: two digits, the colon, two digits. */
  lemma TimeTextIsWord(hour: int, minute: int)
    requires 0 <= hour <= 23 && 0 <= minute <= 59
    ensures |TimeText(hour, minute)| == 5 && NoWhitespace(TimeText(hour, minute))
  {
    var h, m := TwoDigits(hour), TwoDigits(minute);
    TwoDigitsRoundTrip(hour);
    TwoDigitsRoundTrip(minute);
    var t := TimeText(hour, minute);
    forall i | 0 <= i < 5 ensures !IsSpace(t[i]) {
      if i < 2 { assert t[i] == h[i]; } else if i > 2 { assert t[i] == m[i - 3]; }
    }
  }

  /** The loader reads the hour and the minute back from the positions the writer put them at. */
  lemma TimeTextReadBack(hour: int, minute: int)
    requires 0 <= hour <= 23 && 0 <= minute <= 59
    ensures TimeText(hour, minute) != [] && NoWhitespace(TimeText(hour, minute))
    ensures ReadHour(TimeText(hour, minute)) == Some(hour)
    ensures ReadMinute(TimeText(hour, minute)) == Some(minute)
  {
    TimeTextIsWord(hour, minute);
    TimeTextHour(hour, minute);
    TimeTextMinute(hour, minute);
  }

  /** Characters 0-1 of a written time are the zero-padded hour, which `stoi` reads back. */
  lemma TimeTextHour(hour: int, minute: int)
    requires 0 <= hour <= 23 && 0 <= minute <= 59
    ensures ReadHour(TimeText(hour, minute)) == Some(hour)
  {
    TwoDigitsRoundTrip(hour);
    TwoDigitsRoundTrip(minute);
    var t := TimeText(hour, minute);
    assert |t| == 5;
    assert Substr(t, 0, 2) == Some(t[0..2]);
    assert t[0..2] == TwoDigits(hour);
  }

  /** Characters 3-4 of a written time are the zero-padded minute, which `stoi` reads back. */
  lemma TimeTextMinute(hour: int, minute: int)
    requires 0 <= hour <= 23 && 0 <= minute <= 59
    ensures ReadMinute(TimeText(hour, minute)) == Some(minute)
  {
    TwoDigitsRoundTrip(hour);
    TwoDigitsRoundTrip(minute);
    var t := TimeText(hour, minute);
    assert |t| == 5;
    assert Substr(t, 3, 2) == Some(t[3..5]);
    assert t[3..5] == TwoDigits(minute);
  }

  /** The words of a well-formed show's line make that show again. */
  lemma ShowFromOwnWords(s: Show)
    requires WellFormedShow(s)
    ensures ShowFromWords([s.name, s.category, TimeText(s.startHour, s.startMinute),
                           IntToString(s.duration), s.dayOfWeek, s.channelCode]) == Some(s)
  {
    TimeTextReadBack(s.startHour, s.startMinute);
    ReadIntOfIntToString(s.duration);
  }

  /** A well-formed show's line splits into exactly its six fields, in file order. */
  lemma ShowLineWords(s: Show)
    requires WellFormedShow(s)
    ensures Tokens(ShowLine(s)) ==
      [s.name, s.category, TimeText(s.startHour, s.startMinute), IntToString(s.duration), s.dayOfWeek, s.channelCode]
  {
    TimeTextIsWord(s.startHour, s.startMinute);
    TokensOfJoin([s.name, s.category, TimeText(s.startHour, s.startMinute), IntToString(s.duration),
                  s.dayOfWeek, s.channelCode]);
  }

  /** A well-formed channel's line splits into exactly code, name and country. */
  lemma ChannelLineWords(c: Channel)
    requires WellFormedChannel(c)
    ensures Tokens(ChannelLine(c)) == [c.code, c.name, c.originCountry]
  {
    TokensOfJoin([c.code, c.name, c.originCountry]);
  }

  /** Writing a well-formed show and reading the line back gives the same record. */
  lemma ShowLineRoundTrip(s: Show)
    requires WellFormedShow(s)
    ensures ParseShowLine(ShowLine(s)) == Some(s)
  {
    ShowLineWords(s);
    ShowFromOwnWords(s);
  }

  /** Writing a well-formed channel and reading the line back gives the same record. */
  lemma ChannelLineRoundTrip(c: Channel)
    requires WellFormedChannel(c)
    ensures ParseChannelLine(ChannelLine(c)) == c
  {
    ChannelLineWords(c);
  }

  /** A rewritten show file reloads to the same collection, in the same order. */
  lemma ShowFileRoundTrip(programs: seq<Show>)
    requires forall i :: 0 <= i < |programs| ==> WellFormedShow(programs[i])
    ensures ParseShowLines(ShowLines(programs)) == Some(programs)
  {
    var lines := ShowLines(programs);
    forall i | 0 <= i < |lines| ensures ParseShowLine(lines[i]) == Some(programs[i]) {
      ShowLineRoundTrip(programs[i]);
    }
    var r := ParseShowLines(lines);
    assert r.Some?;
    assert r.value == programs;
  }

  /** A rewritten channel file reloads to the same collection, in the same order. */
  lemma ChannelFileRoundTrip(channels: seq<Channel>)
    requires forall i :: 0 <= i < |channels| ==> WellFormedChannel(channels[i])
    ensures ParseChannelLines(ChannelLines(channels)) == channels
  {
    var lines := ChannelLines(channels);
    forall i | 0 <= i < |lines| ensures ParseChannelLines(lines)[i] == channels[i] {
      ChannelLineRoundTrip(channels[i]);
    }
  }

  /** Appending one line (the add operations) and rewriting the whole file agree. */
  lemma AppendMatchesRewrite(programs: seq<Show>, s: Show)
    ensures ShowLines(programs + [s]) == ShowLines(programs) + [ShowLine(s)]
  {
    assert (programs + [s])[..|programs|] == programs;
  }

  /**
   * A time word that does not start with a digit, a sign or whitespace makes
   * `stoi` throw: the line cannot be loaded.
   */
  lemma NonNumericTimeFails(line: string)
    requires |Tokens(line)| > 2 && !IsDigit(Tokens(line)[2][0])
    requires Tokens(line)[2][0] != '+' && Tokens(line)[2][0] != '-'
    ensures ParseShowLine(line) == None
  {
    var time := Tokens(line)[2];
    var h := Substr(time, 0, 2).value;
    assert h[0] == time[0];
    StoiRejectsNonNumeric(h);
    assert ReadHour(time).None?;
  }

  /** Appending a line for a new channel gives the file a rewrite would. */
  lemma AppendChannelMatchesRewrite(channels: seq<Channel>, c: Channel)
    ensures ChannelLines(channels + [c]) == ChannelLines(channels) + [ChannelLine(c)]
  {
    assert (channels + [c])[..|channels|] == channels;
  }

  /** A time word shorter than three characters makes `substr(3, 2)` throw. */
  lemma ShortTimeFails(line: string)
    requires |Tokens(line)| > 2 && |Tokens(line)[2]| < 3
    ensures ParseShowLine(line) == None
  {
  }

  /** Splitting one field at a space does not change the written line. */
  lemma {:induction false} JoinSplitField(front: seq<string>, first: string, second: string, back: seq<string>)
    requires back != []
    ensures Join(front + [first + " " + second] + back) == Join(front + [first, second] + back)
  {
    if front == [] {
      assert [first + " " + second] + back == [first + " " + second] + back;
      assert ([first, second] + back)[1..] == [second] + back;
      assert ([first + " " + second] + back)[1..] == back;
      assert ([second] + back)[1..] == back;
    } else {
      JoinSplitField(front[1..], first, second, back);
      assert (front + [first + " " + second] + back)[1..] == front[1..] + [first + " " + second] + back;
      assert (front + [first, second] + back)[1..] == front[1..] + [first, second] + back;
    }
  }

  /**
   * A day of week holding a space (which the show editor stores unencoded)
   * is written as two words: the line reads back with only the first word
   * as the day.
   */
  lemma SpacedDayNotReadBack(s: Show, first: string, second: string)
    requires WellFormedShow(s.(dayOfWeek := "x"))
    requires first != [] && NoWhitespace(first) && second != [] && NoWhitespace(second)
    requires s.dayOfWeek == first + " " + second
    ensures ParseShowLine(ShowLine(s)) != Some(s)
  {
    var words := SpacedDayWords(s, first, second);
    ShowFromWordsFields(words);
    assert Field(words, 4) == first;
    assert |first| < |s.dayOfWeek|;
  }

  /** The words of a show line whose day holds one space: the day comes back as two words. */
  lemma SpacedDayWords(s: Show, first: string, second: string) returns (words: seq<string>)
    requires WellFormedShow(s.(dayOfWeek := "x"))
    requires first != [] && NoWhitespace(first) && second != [] && NoWhitespace(second)
    requires s.dayOfWeek == first + " " + second
    ensures Tokens(ShowLine(s)) == words && |words| == 7 && words[4] == first
  {
    var time := TimeText(s.startHour, s.startMinute);
    TimeTextIsWord(s.startHour, s.startMinute);
    var d := IntToString(s.duration);
    var front := [s.name, s.category, time, d];
    JoinSplitField(front, first, second, [s.channelCode]);
    assert front + [first + " " + second] + [s.channelCode]
        == [s.name, s.category, time, d, s.dayOfWeek, s.channelCode];
    words := front + [first, second] + [s.channelCode];
    TokensOfJoin(words);
  }

  /**
   * A line's words make a show exactly when the time word yields an hour
   * and a minute and the fourth word is a whole integer; the fields are the
   * words in file order, a missing word read as empty.
   */
  lemma ShowFromWordsFields(t: seq<string>)
    ensures ShowFromWords(t).Some? <==>
      ReadHour(Field(t, 2)).Some? && ReadMinute(Field(t, 2)).Some? && |t| > 3 && ReadInt(t[3]).Some?
    ensures ShowFromWords(t).Some? ==>
      var s := ShowFromWords(t).value;
      && s.name == Field(t, 0) && s.category == Field(t, 1)
      && Some(s.startHour) == ReadHour(Field(t, 2)) && Some(s.startMinute) == ReadMinute(Field(t, 2))
      && Some(s.duration) == ReadInt(t[3])
      && s.dayOfWeek == Field(t, 4) && s.channelCode == Field(t, 5)
  {
  }

}
