/**
 * The store itself: the two global collections of tvmodule.cpp, the lines
 * of the files they are saved to, the loader of main.cpp and every
 * operation on them, each proved against the decision and query functions.
 */
module TvStore {
  import opened Wrappers
  import opened Text
  import opened Numbers
  import opened Records
  import opened Persistence
  import opened Rules
  import opened Queries

  /** How a delete ended: refused for a blank name, something removed, or nothing matched. */
  datatype Removal = RemoveRefused | Removed | NothingRemoved

  /** How an edit ended: refused for a blank name, no record of that name, or run to `outcome`. */
  datatype EditResult = EditRefused | NoSuchRecord | EditEnded(outcome: EditOutcome)

  class Store {
    /** The shows, in insertion order. */
    var programs: seq<Show>
    /** The channels, in insertion order. */
    var channels: seq<Channel>
    /** The lines of the show file. */
    var programFile: seq<string>
    /** The lines of the channel file. */
    var channelFile: seq<string>

    /** Each file holds exactly the lines of its collection. */
    ghost predicate InSync()
      reads this
    {
      programFile == ShowLines(programs) && channelFile == ChannelLines(channels)
    }

    /** Program start: empty collections over the files as they are. */
    constructor (programLines: seq<string>, channelLines: seq<string>)
      ensures programs == [] && channels == []
      ensures programFile == programLines && channelFile == channelLines
    {
      programs := [];
      channels := [];
      programFile := programLines;
      channelFile := channelLines;
    }

    /**
     * main's two load loops: every show line, then every channel line.
     * A show line whose time `stoi` or `substr` cannot read ends the
     * program there, before any channel is read; `failedAt` is that line.
     * The model also stops at a line whose duration word is missing or not
     * a whole integer, which the program would load (see `ShowFromWords`).
     */
    method Load() returns (failedAt: Option<nat>)
      requires programs == [] && channels == []
      modifies this
      ensures programFile == old(programFile) && channelFile == old(channelFile)
      ensures failedAt.None? ==> Some(programs) == ParseShowLines(programFile) && channels == ParseChannelLines(channelFile)
      ensures failedAt.Some? ==>
        && ParseShowLines(programFile) == None
        && failedAt.value < |programFile| && ParseShowLines(programFile[..failedAt.value]) == Some(programs)
        && ParseShowLine(programFile[failedAt.value]).None?
        && channels == []
    {
      var showLines, channelLines := programFile, channelFile;
      var loaded, failed := ReadShows(showLines);
      var read := [];
      if failed.None? {
        read := ReadChannels(channelLines);
      }
      programs, channels, failedAt := loaded, read, failed;
    }

    /** generateNextChannelId: one more than the largest code `stoi` reads, codes it cannot read skipped. */
    method GenerateNextChannelId() returns (code: string)
      ensures code == NextChannelCode(channels)
    {
      code := NextCodeAfter(channels);
    }

    /** addShow: the checks in order, then the record appended in memory and as a line of the show file. */
    method AddShow(name: string, category: string, startTime: string, duration: int,
                   dayOfWeek: string, channelCode: string) returns (r: Added<Show>)
      modifies this
      ensures r == AddShowDecision(old(programs), old(channels), name, category, startTime, duration, dayOfWeek, channelCode)
      ensures r.Added? ==> programs == old(programs) + [r.record] && programFile == old(programFile) + [ShowLine(r.record)]
      ensures r.Rejected? ==> programs == old(programs) && programFile == old(programFile)
      ensures channels == old(channels) && channelFile == old(channelFile)
      ensures old(InSync()) ==> InSync()
    {
      r := CheckNewShow(programs, channels, name, category, startTime, duration, dayOfWeek, channelCode);
      if r.Added? {
        AppendMatchesRewrite(programs, r.record);
        programs, programFile := programs + [r.record], programFile + [ShowLine(r.record)];
      }
    }

    /** addChannel: both fields required, a new encoded name, then the next code; appended in memory and on file. */
    method AddChannel(name: string, originCountry: string) returns (r: Added<Channel>)
      modifies this
      ensures r == AddChannelDecision(old(channels), name, originCountry)
      ensures r.Added? ==> channels == old(channels) + [r.record] && channelFile == old(channelFile) + [ChannelLine(r.record)]
      ensures r.Rejected? ==> channels == old(channels) && channelFile == old(channelFile)
      ensures programs == old(programs) && programFile == old(programFile)
      ensures old(InSync()) ==> InSync()
    {
      r := CheckNewChannel(channels, name, originCountry);
      if r.Added? {
        AppendChannelMatchesRewrite(channels, r.record);
        channels, channelFile := channels + [r.record], channelFile + [ChannelLine(r.record)];
      }
    }

    /**
     * deleteShow: every show with the encoded name goes, the rest keep
     * their order, and the show file is rewritten whether or not one went.
     */
    method DeleteShow(name: string) returns (r: Removal)
      modifies this
      ensures name == [] ==> r == RemoveRefused && programs == old(programs) && programFile == old(programFile)
      ensures name != [] ==> programs == WithoutShow(old(programs), Encode(name)) && programFile == ShowLines(programs)
      ensures name != [] ==>
        (r == Removed <==> exists i :: 0 <= i < |old(programs)| && old(programs)[i].name == Encode(name))
      ensures name != [] ==> r != RemoveRefused
      ensures channels == old(channels) && channelFile == old(channelFile)
      ensures old(InSync()) ==> InSync()
    {
      if name == [] {
        return RemoveRefused;
      }
      var ps, cs := programs, channels;
      var encName := EncodeText(name);
      var kept := RemoveShows(ps, encName);
      WithoutShowShrinks(ps, encName);
      r := if |kept| < |ps| then Removed else NothingRemoved;
      var lines := RenderShows(kept);
      programs, programFile := kept, lines;
    }

    /**
     * deleteChannel: every channel with the encoded name goes and the
     * channel file is rewritten. Shows on a removed channel stay, so only
     * the channel invariants are kept.
     */
    method DeleteChannel(name: string) returns (r: Removal)
      modifies this
      ensures name == [] ==> r == RemoveRefused && channels == old(channels) && channelFile == old(channelFile)
      ensures name != [] ==> channels == WithoutChannel(old(channels), Encode(name)) && channelFile == ChannelLines(channels)
      ensures name != [] ==>
        (r == Removed <==> exists i :: 0 <= i < |old(channels)| && old(channels)[i].name == Encode(name))
      ensures name != [] ==> r != RemoveRefused
      ensures programs == old(programs) && programFile == old(programFile)
      ensures old(InSync()) ==> InSync()
    {
      if name == [] {
        return RemoveRefused;
      }
      var cs := channels;
      var encName := EncodeText(name);
      var kept := RemoveChannels(cs, encName);
      WithoutChannelShrinks(cs, encName);
      r := if |kept| < |cs| then Removed else NothingRemoved;
      var lines := RenderChannels(kept);
      channels, channelFile := kept, lines;
    }

    /**
     * editShow from the menu: the first show with the encoded name is
     * changed field by field from the prompt lines in `p`. A failed name
     * check changes nothing; a failed channel check keeps the fields
     * already changed in memory but leaves the file as it was; otherwise
     * the show file is rewritten.
     */
    method EditShow(name: string, p: ShowPatch) returns (r: EditResult)
      modifies this
      ensures name == [] ==> r == EditRefused && programs == old(programs) && programFile == old(programFile)
      ensures name != [] && FindShow(old(programs), Encode(name)).None? ==>
        r == NoSuchRecord && programs == old(programs) && programFile == old(programFile)
      ensures name != [] && FindShow(old(programs), Encode(name)).Some? ==>
        var i := FindShow(old(programs), Encode(name)).value;
        var e := EditShowRecord(old(programs), old(channels), name, old(programs)[i], p);
        && r == EditEnded(e.outcome)
        && programs == old(programs)[i := e.record]
        && programFile == (if e.outcome == Edited then ShowLines(programs) else old(programFile))
      ensures channels == old(channels) && channelFile == old(channelFile)
      ensures old(InSync()) && r != EditEnded(NoSuchChannel) ==> InSync()
    {
      if name == [] {
        return EditRefused;
      }
      var ps := programs;
      var encName := EncodeText(name);
      var found := FindShow(ps, encName);
      if found.None? {
        return NoSuchRecord;
      }
      var i := found.value;
      var e := EditFields(ps, channels, name, ps[i], p);
      var edited := ps[i := e.record];
      if e.outcome == NameTaken {
        assert edited == ps;
      }
      var lines := programFile;
      if e.outcome == Edited {
        lines := RenderShows(edited);
      }
      programs, programFile := edited, lines;
      return EditEnded(e.outcome);
    }

    /**
     * editChannel from the menu: the first channel with the encoded name
     * gets the typed name and country; the code never changes. A failed
     * name check changes nothing; otherwise the channel file is rewritten.
     */
    method EditChannel(name: string, p: ChannelPatch) returns (r: EditResult)
      modifies this
      ensures name == [] ==> r == EditRefused && channels == old(channels) && channelFile == old(channelFile)
      ensures name != [] && FindChannel(old(channels), Encode(name)).None? ==>
        r == NoSuchRecord && channels == old(channels) && channelFile == old(channelFile)
      ensures name != [] && FindChannel(old(channels), Encode(name)).Some? ==>
        var i := FindChannel(old(channels), Encode(name)).value;
        var e := EditChannelRecord(old(channels), old(channels)[i], p);
        && r == EditEnded(e.outcome)
        && channels == old(channels)[i := e.record]
        && channelFile == (if e.outcome == Edited then ChannelLines(channels) else old(channelFile))
      ensures programs == old(programs) && programFile == old(programFile)
      ensures old(InSync()) ==> InSync()
    {
      if name == [] {
        return EditRefused;
      }
      var cs := channels;
      var encName := EncodeText(name);
      var found := FindChannel(cs, encName);
      if found.None? {
        return NoSuchRecord;
      }
      var i := found.value;
      var e := EditChannelFields(cs, cs[i], p);
      if e.outcome == NameTaken {
        assert cs[i := e.record] == cs;
        return EditEnded(NameTaken);
      }
      var edited := cs[i := e.record];
      var lines := RenderChannels(edited);
      channels, channelFile := edited, lines;
      return EditEnded(Edited);
    }

    /**
     * broadcastSummary: None when there is no channel or no show;
     * otherwise the summary file's lines, one per channel name in key
     * order with the number of shows counted under it.
     */
    method BroadcastSummary() returns (r: Option<seq<string>>)
      ensures r.None? <==> channels == [] || programs == []
      ensures r.Some? ==> r.value == SummaryLines(Tally(programs, channels))
    {
      var ps, cs := programs, channels;
      if cs == [] || ps == [] {
        return None;
      }
      var counts := CountShows(ps, cs);
      var lines := FormatSummary(counts);
      return Some(lines);
    }

    /** specificDayShow: the shows on `day`, ignoring case, sorted by start time. */
    method SpecificDayShow(day: string) returns (shows: seq<Show>)
      ensures SortedByStart(shows)
      ensures multiset(shows) == multiset(OnDay(programs, day))
    {
      var selected := SelectDay(programs, day);
      shows := SortByStart(selected);
    }

    /** maxShow: None when there are no shows; otherwise the running maximum from 0 and the shows of that duration. */
    method MaxShow() returns (r: Option<(int, seq<Show>)>)
      ensures r.None? <==> programs == []
      ensures r.Some? ==> r.value.0 == MaxDuration(programs) && r.value.1 == WithDuration(programs, r.value.0)
    {
      var ps := programs;
      if ps == [] {
        return None;
      }
      var maxDuration := 0;
      for i := 0 to |ps|
        invariant maxDuration == MaxDuration(ps[..i])
      {
        assert ps[..i + 1][..i] == ps[..i];
        if ps[i].duration > maxDuration {
          maxDuration := ps[i].duration;
        }
      }
      var longest: seq<Show> := [];
      for i := 0 to |ps|
        invariant longest == WithDuration(ps[..i], maxDuration)
      {
        assert ps[..i + 1][..i] == ps[..i];
        if ps[i].duration == maxDuration {
          longest := longest + [ps[i]];
        }
      }
      assert ps[..|ps|] == ps;
      return Some((maxDuration, longest));
    }

    /** minShow: None when there are no shows; otherwise the running minimum from INT_MAX and the shows of that duration. */
    method MinShow() returns (r: Option<(int, seq<Show>)>)
      ensures r.None? <==> programs == []
      ensures r.Some? ==> r.value.0 == MinDuration(programs) && r.value.1 == WithDuration(programs, r.value.0)
    {
      var ps := programs;
      if ps == [] {
        return None;
      }
      var minDuration := IntMax;
      for i := 0 to |ps|
        invariant minDuration == MinDuration(ps[..i])
      {
        assert ps[..i + 1][..i] == ps[..i];
        if ps[i].duration < minDuration {
          minDuration := ps[i].duration;
        }
      }
      var shortest: seq<Show> := [];
      for i := 0 to |ps|
        invariant shortest == WithDuration(ps[..i], minDuration)
      {
        assert ps[..i + 1][..i] == ps[..i];
        if ps[i].duration == minDuration {
          shortest := shortest + [ps[i]];
        }
      }
      assert ps[..|ps|] == ps;
      return Some((minDuration, shortest));
    }

    /** averageShow: the sum and number of durations in the encoded category; a count of 0 is the "no shows" report. */
    method AverageShow(category: string) returns (sum: int, count: nat)
      ensures (sum, count) == CategoryTotals(programs, Encode(category))
      ensures count == 0 <==> forall i :: 0 <= i < |programs| ==> programs[i].category != Encode(category)
    {
      var ps := programs;
      var encCategory := EncodeText(category);
      sum, count := 0, 0;
      for i := 0 to |ps|
        invariant (sum, count) == CategoryTotals(ps[..i], encCategory)
      {
        assert ps[..i + 1][..i] == ps[..i];
        if ps[i].category == encCategory {
          sum := sum + ps[i].duration;
          count := count + 1;
        }
      }
      assert ps[..|ps|] == ps;
    }
  }

  /** specificDayShow's selection loop: the shows whose day matches `day` ignoring case, in store order. */
  method SelectDay(programs: seq<Show>, day: string) returns (selected: seq<Show>)
    ensures selected == OnDay(programs, day)
  {
    var dayLower := ToLower(day);
    selected := [];
    for i := 0 to |programs|
      invariant selected == OnDay(programs[..i], day)
    {
      assert programs[..i + 1][..i] == programs[..i];
      if ToLower(programs[i].dayOfWeek) == dayLower {
        selected := selected + [programs[i]];
      }
    }
    assert programs[..|programs|] == programs;
  }

  /** specificDayShow's sort by start time, as an insertion of each show in turn. */
  method SortByStart(xs: seq<Show>) returns (shows: seq<Show>)
    ensures SortedByStart(shows)
    ensures multiset(shows) == multiset(xs)
  {
    shows := [];
    for i := 0 to |xs|
      invariant SortedByStart(shows)
      invariant multiset(shows) == multiset(xs[..i])
    {
      assert xs[..i + 1] == xs[..i] + [xs[i]];
      shows := InsertByStart(shows, xs[i]);
    }
    assert xs[..|xs|] == xs;
  }

  /** broadcastSummary's counting loops: each show counted under the name of the first channel with its code. */
  method CountShows(programs: seq<Show>, channels: seq<Channel>) returns (counts: seq<Entry>)
    ensures counts == Tally(programs, channels)
  {
    counts := [];
    for i := 0 to |programs|
      invariant counts == Tally(programs[..i], channels)
    {
      assert programs[..i + 1][..i] == programs[..i];
      var j := 0;
      while j < |channels| && channels[j].code != programs[i].channelCode
        invariant 0 <= j <= |channels|
        invariant forall k :: 0 <= k < j ==> channels[k].code != programs[i].channelCode
      {
        j := j + 1;
      }
      if j < |channels| {
        assert FirstWithCode(channels, programs[i].channelCode) == Some(j);
        counts := Bump(counts, channels[j].name);
      }
    }
    assert programs[..|programs|] == programs;
  }

  /** broadcastSummary's output loop: one line per entry, the name and its count. */
  method FormatSummary(counts: seq<Entry>) returns (lines: seq<string>)
    ensures lines == SummaryLines(counts)
  {
    lines := [];
    for k := 0 to |counts|
      invariant |lines| == k
      invariant forall m :: 0 <= m < k ==> lines[m] == counts[m].name + " " + IntToString(counts[m].count)
    {
      lines := lines + [counts[k].name + " " + IntToString(counts[k].count)];
    }
  }

  /** The loop of generateNextChannelId over `channels`: the running maximum of the codes `stoi` reads. */
  method NextCodeAfter(channels: seq<Channel>) returns (code: string)
    ensures code == NextChannelCode(channels)
  {
    var maxId: nat := 0;
    for i := 0 to |channels|
      invariant maxId == MaxParsed(ParsedCodes(channels)[..i])
    {
      MaxParsedStep(channels, i);
      var current := Stoi(channels[i].code);
      if current.Some? && current.value > maxId {
        maxId := current.value;
      }
    }
    assert ParsedCodes(channels)[..|channels|] == ParsedCodes(channels);
    code := NatToString(maxId + 1);
  }

  /** addChannel's checks in their order: a missing field, a name already taken; then the next code. */
  method CheckNewChannel(channels: seq<Channel>, name: string, originCountry: string) returns (r: Added<Channel>)
    ensures r == AddChannelDecision(channels, name, originCountry)
  {
    if name == [] || originCountry == [] {
      return Rejected(InvalidInput);
    }
    var encName := EncodeText(name);
    var encCountry := EncodeText(originCountry);
    if exists i | 0 <= i < |channels| :: channels[i].name == encName {
      return Rejected(DuplicateName);
    }
    var code := NextCodeAfter(channels);
    return Added(Channel(code, encName, encCountry));
  }

  /** editChannel's steps on the found record `c`: the name check first, then name and country. */
  method EditChannelFields(channels: seq<Channel>, c: Channel, p: ChannelPatch) returns (e: ChannelEdit)
    ensures e == EditChannelRecord(channels, c, p)
  {
    var newName := EncodeText(p.name);
    if exists k | 0 <= k < |channels| :: channels[k].name == newName && channels[k].name != c.name {
      return ChannelEdit(c, NameTaken);
    }
    var edited := c;
    if newName != [] {
      edited := edited.(name := newName);
    }
    if p.originCountry != [] {
      var newCountry := EncodeText(p.originCountry);
      edited := edited.(originCountry := newCountry);
    }
    return ChannelEdit(edited, Edited);
  }

  /**
   * addShow's checks in their order: a missing field, a name already
   * taken, an unknown channel, then the start time; and the record built
   * from the encoded fields.
   */
  method CheckNewShow(programs: seq<Show>, channels: seq<Channel>, name: string, category: string,
                      startTime: string, duration: int, dayOfWeek: string, channelCode: string) returns (r: Added<Show>)
    ensures r == AddShowDecision(programs, channels, name, category, startTime, duration, dayOfWeek, channelCode)
  {
    if name == [] || category == [] || startTime == [] || duration <= 0 || dayOfWeek == [] || channelCode == [] {
      return Rejected(InvalidInput);
    }
    var encName := EncodeText(name);
    var encCategory := EncodeText(category);
    var encDay := EncodeText(dayOfWeek);
    if exists i | 0 <= i < |programs| :: programs[i].name == encName {
      return Rejected(DuplicateName);
    }
    var channelExists := exists j | 0 <= j < |channels| :: channels[j].code == channelCode;
    if !channelExists {
      return Rejected(UnknownChannel);
    }
    var startHour, startMinute := 0, 0;
    match ReadClock(startTime) {
      case NoColon =>
      case Malformed =>
        return Rejected(BadTimeFormat);
      case Clock(hour, minute) =>
        if hour < 0 || hour > 23 || minute < 0 || minute > 59 {
          return Rejected(InvalidTime);
        }
        startHour, startMinute := hour, minute;
    }
    return Added(Show(encName, encCategory, startHour, startMinute, duration, encDay, channelCode));
  }

  /**
   * editShow's steps on the found record `s`, one field after another; a
   * failed name check returns before any change, a failed channel check
   * returns with the fields changed so far.
   */
  method EditFields(programs: seq<Show>, channels: seq<Channel>, name: string, s: Show, p: ShowPatch) returns (e: ShowEdit)
    ensures e == EditShowRecord(programs, channels, name, s, p)
  {
    var newName := EncodeText(p.name);
    if newName != [] && exists k | 0 <= k < |programs| :: programs[k].name == newName && programs[k].name != name {
      return ShowEdit(s, NameTaken);
    }
    var t := s;
    if newName != [] {
      t := t.(name := newName);
    }
    var newCategory := EncodeText(p.category);
    if newCategory != [] {
      t := t.(category := newCategory);
    }
    t := EditClock(t, p.startTime);
    t := EditDuration(t, p.duration);
    if p.dayOfWeek != [] {
      t := t.(dayOfWeek := p.dayOfWeek);
    }
    if p.channelCode != [] {
      var channelExists := exists j | 0 <= j < |channels| :: channels[j].code == p.channelCode;
      if !channelExists {
        return ShowEdit(t, NoSuchChannel);
      }
      t := t.(channelCode := p.channelCode);
    }
    return ShowEdit(t, Edited);
  }

  /** The first load loop: each line read as a show, stopping at the first line `ParseShowLine` rejects. */
  method ReadShows(lines: seq<string>) returns (loaded: seq<Show>, failedAt: Option<nat>)
    ensures failedAt.None? <==> ParseShowLines(lines).Some?
    ensures failedAt.None? ==> Some(loaded) == ParseShowLines(lines)
    ensures failedAt.Some? ==>
      && failedAt.value < |lines| && ParseShowLine(lines[failedAt.value]).None?
      && ParseShowLines(lines[..failedAt.value]) == Some(loaded)
  {
    loaded := [];
    var i := 0;
    while i < |lines|
      invariant 0 <= i <= |lines|
      invariant ParseShowLines(lines[..i]) == Some(loaded)
    {
      var s := ParseShowLine(lines[i]);
      if s.None? {
        ParseShowLinesFailsAt(lines, i);
        return loaded, Some(i);
      }
      ParseShowLinesExtend(lines, i, loaded, s.value);
      loaded := loaded + [s.value];
      i := i + 1;
    }
    assert lines[..i] == lines;
    return loaded, None;
  }

  /** The second load loop: each line read as a channel. */
  method ReadChannels(lines: seq<string>) returns (read: seq<Channel>)
    ensures read == ParseChannelLines(lines)
    ensures forall k :: 0 <= k < |read| ==> NoWhitespace(read[k].code) && NoWhitespace(read[k].name)
  {
    read := [];
    for j := 0 to |lines|
      invariant |read| == j
      invariant forall k :: 0 <= k < j ==> read[k] == ParseChannelLine(lines[k])
    {
      read := read + [ParseChannelLine(lines[j])];
    }
  }

  /** The rewrite loop of the show file: one line per show, in order. */
  method RenderShows(programs: seq<Show>) returns (lines: seq<string>)
    ensures lines == ShowLines(programs)
  {
    lines := [];
    for i := 0 to |programs|
      invariant lines == ShowLines(programs[..i])
    {
      assert programs[..i + 1][..i] == programs[..i];
      lines := lines + [ShowLine(programs[i])];
    }
    assert programs[..|programs|] == programs;
  }

  /** The rewrite loop of the channel file: one line per channel, in order. */
  method RenderChannels(channels: seq<Channel>) returns (lines: seq<string>)
    ensures lines == ChannelLines(channels)
  {
    lines := [];
    for i := 0 to |channels|
      invariant lines == ChannelLines(channels[..i])
    {
      assert channels[..i + 1][..i] == channels[..i];
      lines := lines + [ChannelLine(channels[i])];
    }
    assert channels[..|channels|] == channels;
  }

  /** deleteShow's `remove_if`: the shows not named `name`, in their order. */
  method RemoveShows(programs: seq<Show>, name: string) returns (kept: seq<Show>)
    ensures kept == WithoutShow(programs, name)
  {
    kept := [];
    for i := 0 to |programs|
      invariant kept == WithoutShow(programs[..i], name)
    {
      assert programs[..i + 1][..i] == programs[..i];
      if programs[i].name != name {
        kept := kept + [programs[i]];
      }
    }
    assert programs[..|programs|] == programs;
  }

  /** deleteChannel's `remove_if`: the channels not named `name`, in their order. */
  method RemoveChannels(channels: seq<Channel>, name: string) returns (kept: seq<Channel>)
    ensures kept == WithoutChannel(channels, name)
  {
    kept := [];
    for i := 0 to |channels|
      invariant kept == WithoutChannel(channels[..i], name)
    {
      assert channels[..i + 1][..i] == channels[..i];
      if channels[i].name != name {
        kept := kept + [channels[i]];
      }
    }
    assert channels[..|channels|] == channels;
  }
}
