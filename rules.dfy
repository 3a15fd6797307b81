/**
 * The decisions the store's mutating operations make (tvmodule.cpp
 * addShow, addChannel, generateNextChannelId, deleteShow, deleteChannel,
 * editShow, editChannel), stated as functions of the collections and the
 * user's input, with the invariants they keep.
 */
module Rules {
  import opened Wrappers
  import opened Text
  import opened Numbers
  import opened Records
  import opened Persistence

  /** Why an add operation appended nothing. */
  datatype AddError = InvalidInput | DuplicateName | UnknownChannel | InvalidTime | BadTimeFormat

  /** The outcome of an add: the record appended, or why nothing was. */
  datatype Added<T> = Added(record: T) | Rejected(error: AddError)

  /** A start time as typed: no colon at all, numbers on both sides of the first colon, or neither. */
  datatype ClockText = NoColon | Clock(hour: int, minute: int) | Malformed

  predicate ValidClock(hour: int, minute: int)
  {
    0 <= hour <= 23 && 0 <= minute <= 59
  }

  /** Position of the first occurrence of `c` (`std::string::find`). */
  function IndexOf(s: string, c: char): (r: Option<nat>)
    ensures r.None? <==> c !in s
    ensures r.Some? ==> r.value < |s| && s[r.value] == c && c !in s[..r.value]
  {
    if s == [] then None
    else if s[0] == c then Some(0)
    else match IndexOf(s[1..], c)
      case None => None
      case Some(k) => assert s[..k + 1] == [s[0]] + s[1..][..k]; Some(k + 1)
  }

  /** `find` stops at the first occurrence. */
  lemma {:induction false} IndexOfFirst(s: string, c: char, k: nat)
    requires k < |s| && s[k] == c && c !in s[..k]
    ensures IndexOf(s, c) == Some(k)
  {
    if k > 0 {
      assert s[0] == s[..k][0];
      assert s[..k] == [s[0]] + s[1..][..k - 1];
      IndexOfFirst(s[1..], c, k - 1);
    }
  }

  /** The hour before the first colon and the minute after it, each read with `stoi`. */
  function ReadClock(text: string): (r: ClockText)
    ensures r == NoColon <==> ':' !in text
  {
    match IndexOf(text, ':')
    case None => NoColon
    case Some(k) =>
      match (Stoi(text[..k]), Stoi(text[k + 1..]))
      case (Some(h), Some(m)) => Clock(h, m)
      case _ => Malformed
  }

  /** Text without a colon before the first one: `stoi` reads each side of that colon. */
  lemma ReadClockOfParts(before: string, after: string)
    requires ':' !in before
    ensures ReadClock(before + ":" + after) ==
      (if Stoi(before).Some? && Stoi(after).Some? then Clock(Stoi(before).value, Stoi(after).value) else Malformed)
  {
    var text := before + ":" + after;
    var k := |before|;
    assert text[k] == ':' && text[..k] == before && text[k + 1..] == after;
    IndexOfFirst(text, ':', k);
  }

  /** `to_string` writes no colon. */
  lemma IntToStringNoColon(i: int)
    ensures ':' !in IntToString(i)
  {
    var d := NatToString(if i < 0 then -i else i);
    assert forall j :: 0 <= j < |d| ==> IsDigit(d[j]);
    if i < 0 {
      assert IntToString(i) == "-" + d;
    }
  }

  /** The zero-padded time the store writes reads back as the same clock. */
  lemma ReadClockOfTimeText(hour: int, minute: int)
    requires ValidClock(hour, minute)
    ensures ReadClock(TimeText(hour, minute)) == Clock(hour, minute)
  {
    TwoDigitsRoundTrip(hour);
    TwoDigitsRoundTrip(minute);
    var h := TwoDigits(hour);
    assert IsDigit(h[0]) && IsDigit(h[1]);
    assert ':' !in h;
    ReadClockOfParts(h, TwoDigits(minute));
  }

  /** Padding is optional: "9:5" and "9:05" both read as hour 9, minute 5; signs and large values are read too. */
  lemma ReadClockUnpadded(hour: int, minute: int)
    ensures ReadClock(IntToString(hour) + ":" + IntToString(minute)) == Clock(hour, minute)
    ensures 0 <= minute < 100 ==> ReadClock(IntToString(hour) + ":" + TwoDigits(minute)) == Clock(hour, minute)
  {
    IntToStringNoColon(hour);
    StoiOfIntToString(hour);
    StoiOfIntToString(minute);
    ReadClockOfParts(IntToString(hour), IntToString(minute));
    if 0 <= minute < 100 {
      TwoDigitsRoundTrip(minute);
      ReadClockOfParts(IntToString(hour), TwoDigits(minute));
    }
  }

  predicate MissingShowField(name: string, category: string, startTime: string, duration: int,
                             dayOfWeek: string, channelCode: string)
  {
    name == [] || category == [] || startTime == [] || duration <= 0 || dayOfWeek == [] || channelCode == []
  }

  /** The checks addShow makes before it looks at the time: fields present, name new, channel known. */
  predicate ShowChecksPass(programs: seq<Show>, channels: seq<Channel>, name: string, category: string,
                           startTime: string, duration: int, dayOfWeek: string, channelCode: string)
  {
    && !MissingShowField(name, category, startTime, duration, dayOfWeek, channelCode)
    && (forall i :: 0 <= i < |programs| ==> programs[i].name != Encode(name))
    && (exists j :: 0 <= j < |channels| && channels[j].code == channelCode)
  }

  /**
   * addShow: the checks in their order (missing field, duplicate encoded
   * name, unknown channel, bad time), then the record with its text fields
   * encoded. A start time without a colon is accepted as 00:00.
   */
  function AddShowDecision(programs: seq<Show>, channels: seq<Channel>, name: string, category: string,
                           startTime: string, duration: int, dayOfWeek: string, channelCode: string): (r: Added<Show>)
  {
    if MissingShowField(name, category, startTime, duration, dayOfWeek, channelCode) then Rejected(InvalidInput)
    else if exists i | 0 <= i < |programs| :: programs[i].name == Encode(name) then Rejected(DuplicateName)
    else if !exists j | 0 <= j < |channels| :: channels[j].code == channelCode then Rejected(UnknownChannel)
    else
      var record := Show(Encode(name), Encode(category), 0, 0, duration, Encode(dayOfWeek), channelCode);
      match ReadClock(startTime)
      case NoColon => Added(record)
      case Malformed => Rejected(BadTimeFormat)
      case Clock(h, m) =>
        if ValidClock(h, m) then Added(record.(startHour := h, startMinute := m)) else Rejected(InvalidTime)
  }

  /** When addShow refuses, and why: each refusal is the first check that fails. */
  lemma AddShowRefusals(programs: seq<Show>, channels: seq<Channel>, name: string, category: string,
                               startTime: string, duration: int, dayOfWeek: string, channelCode: string)
    ensures var r := AddShowDecision(programs, channels, name, category, startTime, duration, dayOfWeek, channelCode);
      && (r == Rejected(InvalidInput) <==> MissingShowField(name, category, startTime, duration, dayOfWeek, channelCode))
      && (r == Rejected(DuplicateName) <==>
        && !MissingShowField(name, category, startTime, duration, dayOfWeek, channelCode)
        && exists i :: 0 <= i < |programs| && programs[i].name == Encode(name))
      && (r == Rejected(UnknownChannel) <==>
        && !MissingShowField(name, category, startTime, duration, dayOfWeek, channelCode)
        && (forall i :: 0 <= i < |programs| ==> programs[i].name != Encode(name))
        && (forall j :: 0 <= j < |channels| ==> channels[j].code != channelCode))
      && (r == Rejected(BadTimeFormat) <==>
        ShowChecksPass(programs, channels, name, category, startTime, duration, dayOfWeek, channelCode)
        && ReadClock(startTime) == Malformed)
      && (r == Rejected(InvalidTime) <==>
        && ShowChecksPass(programs, channels, name, category, startTime, duration, dayOfWeek, channelCode)
        && ReadClock(startTime).Clock?
        && !ValidClock(ReadClock(startTime).hour, ReadClock(startTime).minute))
  {
    var r := AddShowDecision(programs, channels, name, category, startTime, duration, dayOfWeek, channelCode);
    if MissingShowField(name, category, startTime, duration, dayOfWeek, channelCode) {
      assert r == Rejected(InvalidInput);
    } else if exists i | 0 <= i < |programs| :: programs[i].name == Encode(name) {
      assert r == Rejected(DuplicateName);
    } else if !exists j | 0 <= j < |channels| :: channels[j].code == channelCode {
      assert r == Rejected(UnknownChannel);
    } else {
      match ReadClock(startTime)
      case NoColon =>
        assert r.Added?;
      case Malformed =>
        assert r == Rejected(BadTimeFormat);
      case Clock(h, m) =>
        assert r.Added? || r == Rejected(InvalidTime);
    }
  }

  /** What addShow stores: the encoded fields, a valid clock (00:00 without a colon), a fresh name and a known channel. */
  lemma AddShowAccepted(programs: seq<Show>, channels: seq<Channel>, name: string, category: string,
                               startTime: string, duration: int, dayOfWeek: string, channelCode: string)
    requires AddShowDecision(programs, channels, name, category, startTime, duration, dayOfWeek, channelCode).Added?
    ensures var s := AddShowDecision(programs, channels, name, category, startTime, duration, dayOfWeek, channelCode).record;
      && s.name == Encode(name) && s.category == Encode(category)
      && s.dayOfWeek == Encode(dayOfWeek) && s.channelCode == channelCode
      && s.duration == duration && duration > 0
      && ValidClock(s.startHour, s.startMinute)
      && ReadClock(startTime) != Malformed
      && (':' !in startTime ==> s.startHour == 0 && s.startMinute == 0)
      && (ReadClock(startTime).Clock? ==>
        s.startHour == ReadClock(startTime).hour && s.startMinute == ReadClock(startTime).minute)
      && (forall i :: 0 <= i < |programs| ==> programs[i].name != s.name)
      && (exists j :: 0 <= j < |channels| && channels[j].code == s.channelCode)
  {
    var clock := ReadClock(startTime);
    assert clock == NoColon <==> ':' !in startTime;
  }

  /** Appending what addShow accepts keeps show names unique and space-free and every channel reference valid. */
  lemma AddShowKeepsInvariants(programs: seq<Show>, channels: seq<Channel>, name: string, category: string,
                               startTime: string, duration: int, dayOfWeek: string, channelCode: string)
    requires AddShowDecision(programs, channels, name, category, startTime, duration, dayOfWeek, channelCode).Added?
    ensures var s := AddShowDecision(programs, channels, name, category, startTime, duration, dayOfWeek, channelCode).record;
      && (UniqueShowNames(programs) ==> UniqueShowNames(programs + [s]))
      && (ShowNamesSpaceFree(programs) ==> ShowNamesSpaceFree(programs + [s]))
      && (ShowsReferenceChannels(programs, channels) ==> ShowsReferenceChannels(programs + [s], channels))
  {
    AddShowAccepted(programs, channels, name, category, startTime, duration, dayOfWeek, channelCode);
    var s := AddShowDecision(programs, channels, name, category, startTime, duration, dayOfWeek, channelCode).record;
    var ps := programs + [s];
    if UniqueShowNames(programs) {
      forall i, j | 0 <= i < j < |ps| ensures ps[i].name != ps[j].name {
        if j == |programs| { assert ps[i] == programs[i]; }
      }
    }
    if ShowsReferenceChannels(programs, channels) {
      forall i | 0 <= i < |ps| ensures exists j :: 0 <= j < |channels| && channels[j].code == ps[i].channelCode {
        if i < |programs| { assert ps[i] == programs[i]; }
      }
    }
  }

  /**
   * What addShow stores for text typed with plain spaces and no underscore
   * is written, read back and decoded to exactly what was typed.
   */
  lemma AddedShowReadsBack(programs: seq<Show>, channels: seq<Channel>, name: string, category: string,
                           startTime: string, duration: int, dayOfWeek: string, channelCode: string)
    requires AddShowDecision(programs, channels, name, category, startTime, duration, dayOfWeek, channelCode).Added?
    requires OnlyPlainSpaces(name) && OnlyPlainSpaces(category) && OnlyPlainSpaces(dayOfWeek)
    requires '_' !in name && '_' !in category && '_' !in dayOfWeek
    requires NoWhitespace(channelCode)
    ensures var s := AddShowDecision(programs, channels, name, category, startTime, duration, dayOfWeek, channelCode).record;
      && ParseShowLine(ShowLine(s)) == Some(s)
      && Decode(s.name) == name && Decode(s.category) == category && Decode(s.dayOfWeek) == dayOfWeek
  {
    AddShowAccepted(programs, channels, name, category, startTime, duration, dayOfWeek, channelCode);
    var s := AddShowDecision(programs, channels, name, category, startTime, duration, dayOfWeek, channelCode).record;
    EncodeNoWhitespace(name);
    EncodeNoWhitespace(category);
    EncodeNoWhitespace(dayOfWeek);
    ShowLineRoundTrip(s);
    DecodeEncode(name);
    DecodeEncode(category);
    DecodeEncode(dayOfWeek);
  }

  /** What `stoi` makes of each channel code, in channel order (None where it throws). */
  function ParsedCodes(channels: seq<Channel>): (r: seq<Option<int>>)
    ensures |r| == |channels|
    ensures forall i {:trigger r[i]} :: 0 <= i < |channels| ==> r[i] == Stoi(channels[i].code)
  {
    seq(|channels|, i requires 0 <= i < |channels| => Stoi(channels[i].code))
  }

  /** The largest accepted value, or 0: the running `max` of generateNextChannelId. */
  function MaxParsed(values: seq<Option<int>>): (m: nat)
    ensures forall i :: 0 <= i < |values| && values[i].Some? ==> values[i].value <= m
    ensures m == 0 || exists i :: 0 <= i < |values| && values[i] == Some(m)
  {
    if values == [] then 0
    else
      var front := values[..|values| - 1];
      var last := values[|values| - 1];
      var m := MaxParsed(front);
      assert forall i :: 0 <= i < |front| ==> front[i] == values[i];
      if last.Some? && last.value > m then last.value else m
  }

  /** generateNextChannelId: one more than the largest numeric code. */
  /** One step of generateNextChannelId's loop: the maximum over one more channel's code. */
  lemma MaxParsedStep(channels: seq<Channel>, i: nat)
    requires i < |channels|
    ensures MaxParsed(ParsedCodes(channels)[..i + 1]) ==
      (var m := MaxParsed(ParsedCodes(channels)[..i]);
       var c := Stoi(channels[i].code);
       if c.Some? && c.value > m then c.value else m)
  {
    var codes := ParsedCodes(channels);
    var ext := codes[..i + 1];
    assert ext[..|ext| - 1] == codes[..i];
    assert ext[|ext| - 1] == codes[i];
  }

  function NextChannelCode(channels: seq<Channel>): (r: string)
    ensures r != [] && AllDigits(r)
  {
    NatToString(MaxParsed(ParsedCodes(channels)) + 1)
  }

  /**
   * The generated code reads as one more than the largest code `stoi` can
   * read, or as 1 when there is none (codes "3", "x", "7" give "8").
   */
  lemma NextChannelCodeValue(channels: seq<Channel>)
    ensures Stoi(NextChannelCode(channels)).Some?
    ensures forall i :: 0 <= i < |channels| && Stoi(channels[i].code).Some? ==>
      Stoi(channels[i].code).value < Stoi(NextChannelCode(channels)).value
    ensures var v := Stoi(NextChannelCode(channels)).value;
      v == 1 || exists i :: 0 <= i < |channels| && Stoi(channels[i].code) == Some(v - 1)
  {
    var codes := ParsedCodes(channels);
    var m := MaxParsed(codes);
    StoiOfIntToString(m + 1);
    assert IntToString(m + 1) == NextChannelCode(channels);
    forall i | 0 <= i < |channels| && Stoi(channels[i].code).Some?
      ensures Stoi(channels[i].code).value <= m
    {
      assert codes[i] == Stoi(channels[i].code);
    }
    if m != 0 {
      var i :| 0 <= i < |codes| && codes[i] == Some(m);
      assert Stoi(channels[i].code) == Some(m);
    }
  }

  /** The generated code is different from every existing code, numeric or not. */
  lemma NextChannelCodeFresh(channels: seq<Channel>)
    ensures forall i :: 0 <= i < |channels| ==> channels[i].code != NextChannelCode(channels)
  {
    var m := MaxParsed(ParsedCodes(channels));
    StoiOfIntToString(m + 1);
    assert IntToString(m + 1) == NextChannelCode(channels);
    forall i | 0 <= i < |channels| ensures channels[i].code != NextChannelCode(channels) {
      assert ParsedCodes(channels)[i] == Stoi(channels[i].code);
    }
  }

  /** Codes "3", "x" and "7": the one `stoi` cannot read is skipped and the next code is "8". */
  lemma NextChannelCodeExample()
    ensures NextChannelCode([Channel("3", "A", "X"), Channel("x", "B", "X"), Channel("7", "C", "X")]) == "8"
  {
    var cs := [Channel("3", "A", "X"), Channel("x", "B", "X"), Channel("7", "C", "X")];
    assert IntToString(3) == "3" && IntToString(7) == "7";
    StoiOfIntToString(3);
    StoiOfIntToString(7);
    StoiRejectsNonNumeric("x");
    assert Stoi(cs[0].code) == Some(3) && Stoi(cs[1].code) == None && Stoi(cs[2].code) == Some(7);
    NextChannelCodeValue(cs);
    var m := MaxParsed(ParsedCodes(cs));
    StoiOfIntToString(m + 1);
    assert IntToString(m + 1) == NextChannelCode(cs);
    assert m + 1 == 8;
    assert NatToString(8) == "8";
  }

  /**
   * addChannel: both fields required, the encoded name must be new, and
   * the record gets the next code.
   */
  function AddChannelDecision(channels: seq<Channel>, name: string, originCountry: string): (r: Added<Channel>)
    ensures r == Rejected(InvalidInput) <==> name == [] || originCountry == []
    ensures r == Rejected(DuplicateName) <==>
      name != [] && originCountry != [] && exists i :: 0 <= i < |channels| && channels[i].name == Encode(name)
    ensures r.Rejected? ==> r.error == InvalidInput || r.error == DuplicateName
    ensures r.Added? ==> r.record.name == Encode(name) && r.record.originCountry == Encode(originCountry)
    ensures r.Added? ==> r.record.code == NextChannelCode(channels)
    ensures r.Added? ==> forall i :: 0 <= i < |channels| ==>
      channels[i].name != r.record.name && channels[i].code != r.record.code
  {
    if name == [] || originCountry == [] then Rejected(InvalidInput)
    else if exists i | 0 <= i < |channels| :: channels[i].name == Encode(name) then Rejected(DuplicateName)
    else
      NextChannelCodeFresh(channels);
      Added(Channel(NextChannelCode(channels), Encode(name), Encode(originCountry)))
  }

  /** Appending what addChannel accepts keeps channel names and codes unique. */
  lemma AddChannelKeepsInvariants(channels: seq<Channel>, name: string, originCountry: string)
    requires AddChannelDecision(channels, name, originCountry).Added?
    requires UniqueChannelNames(channels) && UniqueChannelCodes(channels)
    ensures var c := AddChannelDecision(channels, name, originCountry).record;
      UniqueChannelNames(channels + [c]) && UniqueChannelCodes(channels + [c])
  {
    var c := AddChannelDecision(channels, name, originCountry).record;
    var cs := channels + [c];
    forall i, j | 0 <= i < j < |cs| ensures cs[i].name != cs[j].name && cs[i].code != cs[j].code {
      if j == |channels| { assert cs[i] == channels[i]; }
    }
  }

  /** Appending a channel (addChannel) keeps every show's channel reference. */
  lemma AppendedChannelKeepsReferences(programs: seq<Show>, channels: seq<Channel>, c: Channel)
    requires ShowsReferenceChannels(programs, channels)
    ensures ShowsReferenceChannels(programs, channels + [c])
  {
    var cs := channels + [c];
    forall k | 0 <= k < |programs| ensures exists j :: 0 <= j < |cs| && cs[j].code == programs[k].channelCode {
      var j :| 0 <= j < |channels| && channels[j].code == programs[k].channelCode;
      assert cs[j] == channels[j];
    }
    assert forall k :: 0 <= k < |programs| ==> exists j :: 0 <= j < |cs| && cs[j].code == programs[k].channelCode;
  }

  /** A second channel with the same name is always refused. */
  lemma AddChannelTwiceFails(channels: seq<Channel>, name: string, originCountry: string, otherCountry: string)
    requires AddChannelDecision(channels, name, originCountry).Added?
    requires otherCountry != []
    ensures var c := AddChannelDecision(channels, name, originCountry).record;
      AddChannelDecision(channels + [c], name, otherCountry) == Rejected(DuplicateName)
  {
    var c := AddChannelDecision(channels, name, originCountry).record;
    assert (channels + [c])[|channels|].name == Encode(name);
  }

  /** The shows remove_if keeps: those whose name is not `name`, in their order. */
  function WithoutShow(programs: seq<Show>, name: string): (r: seq<Show>)
    ensures |r| <= |programs|
  {
    if programs == [] then []
    else
      var front := programs[..|programs| - 1];
      var last := programs[|programs| - 1];
      assert programs == front + [last];
      if last.name == name then WithoutShow(front, name) else WithoutShow(front, name) + [last]
  }

  /** The channels remove_if keeps: those whose name is not `name`, in their order. */
  function WithoutChannel(channels: seq<Channel>, name: string): (r: seq<Channel>)
    ensures |r| <= |channels|
  {
    if channels == [] then []
    else
      var front := channels[..|channels| - 1];
      var last := channels[|channels| - 1];
      assert channels == front + [last];
      if last.name == name then WithoutChannel(front, name) else WithoutChannel(front, name) + [last]
  }

  /** Exactly the programs not named `name` are kept. */
  lemma {:induction false} WithoutShowMembers(programs: seq<Show>, name: string)
    ensures forall s :: s in WithoutShow(programs, name) <==> s in programs && s.name != name
  {
    if programs != [] {
      var front := programs[..|programs| - 1];
      assert programs == front + [programs[|programs| - 1]];
      WithoutShowMembers(front, name);
    }
  }

  /** Something is removed exactly when some entry has the name; when none has it, nothing changes. */
  lemma {:induction false} WithoutShowShrinks(programs: seq<Show>, name: string)
    ensures |WithoutShow(programs, name)| < |programs| <==> exists i :: 0 <= i < |programs| && programs[i].name == name
    ensures (forall i :: 0 <= i < |programs| ==> programs[i].name != name) ==> WithoutShow(programs, name) == programs
  {
    if programs != [] {
      var front := programs[..|programs| - 1];
      assert programs == front + [programs[|programs| - 1]];
      WithoutShowShrinks(front, name);
      if exists i :: 0 <= i < |front| && front[i].name == name {
        var i :| 0 <= i < |front| && front[i].name == name;
        assert programs[i].name == name;
      }
    }
  }

  /** Removal keeps relative order: removing from a concatenation removes from each part. */
  lemma {:induction false} WithoutShowConcat(a: seq<Show>, b: seq<Show>, name: string)
    ensures WithoutShow(a + b, name) == WithoutShow(a, name) + WithoutShow(b, name)
  {
    if b == [] {
      assert a + b == a;
    } else {
      var front := b[..|b| - 1];
      assert (a + b)[..|a + b| - 1] == a + front;
      assert (a + b)[|a + b| - 1] == b[|b| - 1];
      WithoutShowConcat(a, front, name);
    }
  }

  /** Exactly the channels not named `name` are kept. */
  lemma {:induction false} WithoutChannelMembers(channels: seq<Channel>, name: string)
    ensures forall c :: c in WithoutChannel(channels, name) <==> c in channels && c.name != name
  {
    if channels != [] {
      var front := channels[..|channels| - 1];
      assert channels == front + [channels[|channels| - 1]];
      WithoutChannelMembers(front, name);
    }
  }

  /** Something is removed exactly when some entry has the name; when none has it, nothing changes. */
  lemma {:induction false} WithoutChannelShrinks(channels: seq<Channel>, name: string)
    ensures |WithoutChannel(channels, name)| < |channels| <==> exists i :: 0 <= i < |channels| && channels[i].name == name
    ensures (forall i :: 0 <= i < |channels| ==> channels[i].name != name) ==> WithoutChannel(channels, name) == channels
  {
    if channels != [] {
      var front := channels[..|channels| - 1];
      assert channels == front + [channels[|channels| - 1]];
      WithoutChannelShrinks(front, name);
      if exists i :: 0 <= i < |front| && front[i].name == name {
        var i :| 0 <= i < |front| && front[i].name == name;
        assert channels[i].name == name;
      }
    }
  }

  /** Removal keeps relative order (channels). */
  lemma {:induction false} WithoutChannelConcat(a: seq<Channel>, b: seq<Channel>, name: string)
    ensures WithoutChannel(a + b, name) == WithoutChannel(a, name) + WithoutChannel(b, name)
  {
    if b == [] {
      assert a + b == a;
    } else {
      var front := b[..|b| - 1];
      assert (a + b)[..|a + b| - 1] == a + front;
      assert (a + b)[|a + b| - 1] == b[|b| - 1];
      WithoutChannelConcat(a, front, name);
    }
  }

  /** Removing shows keeps show names unique. */
  lemma {:induction false} DeleteShowKeepsUniqueNames(programs: seq<Show>, name: string)
    requires UniqueShowNames(programs)
    ensures UniqueShowNames(WithoutShow(programs, name))
  {
    if programs != [] {
      var front := programs[..|programs| - 1];
      var last := programs[|programs| - 1];
      DeleteShowKeepsUniqueNames(front, name);
      var rf := WithoutShow(front, name);
      WithoutShowMembers(front, name);
      if last.name != name {
        forall i | 0 <= i < |rf| ensures rf[i].name != last.name {
          assert rf[i] in front;
        }
      }
    }
  }

  /** Removing shows keeps every remaining show's name space-free and its channel reference valid. */
  lemma DeleteShowKeepsReferences(programs: seq<Show>, channels: seq<Channel>, name: string)
    ensures ShowNamesSpaceFree(programs) ==> ShowNamesSpaceFree(WithoutShow(programs, name))
    ensures ShowsReferenceChannels(programs, channels) ==> ShowsReferenceChannels(WithoutShow(programs, name), channels)
  {
    var r := WithoutShow(programs, name);
    WithoutShowMembers(programs, name);
    if ShowNamesSpaceFree(programs) {
      forall i | 0 <= i < |r| ensures ' ' !in r[i].name {
        assert r[i] in programs;
      }
    }
    if ShowsReferenceChannels(programs, channels) {
      forall i | 0 <= i < |r|
        ensures exists j :: 0 <= j < |channels| && channels[j].code == r[i].channelCode
      {
        assert r[i] in programs;
      }
    }
  }

  /** Removing channels keeps channel names unique. */
  lemma {:induction false} DeleteChannelKeepsUniqueNames(channels: seq<Channel>, name: string)
    requires UniqueChannelNames(channels)
    ensures UniqueChannelNames(WithoutChannel(channels, name))
  {
    if channels != [] {
      var front := channels[..|channels| - 1];
      var last := channels[|channels| - 1];
      DeleteChannelKeepsUniqueNames(front, name);
      var rf := WithoutChannel(front, name);
      WithoutChannelMembers(front, name);
      if last.name != name {
        forall i | 0 <= i < |rf| ensures rf[i].name != last.name {
          assert rf[i] in front;
        }
      }
    }
  }

  /** Removing channels keeps channel codes unique. */
  lemma {:induction false} DeleteChannelKeepsUniqueCodes(channels: seq<Channel>, name: string)
    requires UniqueChannelCodes(channels)
    ensures UniqueChannelCodes(WithoutChannel(channels, name))
  {
    if channels != [] {
      var front := channels[..|channels| - 1];
      var last := channels[|channels| - 1];
      DeleteChannelKeepsUniqueCodes(front, name);
      var rf := WithoutChannel(front, name);
      WithoutChannelMembers(front, name);
      if last.name != name {
        forall i | 0 <= i < |rf| ensures rf[i].code != last.code {
          assert rf[i] in front;
        }
      }
    }
  }

  /** Deleting a channel does not cascade: a show can be left pointing at no channel. */
  lemma DeleteChannelCanOrphanShows()
    ensures var channels := [Channel("1", "News", "UK"), Channel("2", "Sport", "UK")];
            var programs := [Show("Headlines", "news", 9, 0, 30, "Monday", "1")];
      ShowsReferenceChannels(programs, channels)
      && !ShowsReferenceChannels(programs, WithoutChannel(channels, "News"))
  {
    var channels := [Channel("1", "News", "UK"), Channel("2", "Sport", "UK")];
    var programs := [Show("Headlines", "news", 9, 0, 30, "Monday", "1")];
    assert channels[..1] == [channels[0]];
    assert channels[..1][..0] == [];
    var rest := WithoutChannel(channels, "News");
    assert rest == [channels[1]];
    assert channels[0].code == programs[0].channelCode;
    assert rest[0].code != programs[0].channelCode;
  }

  /** Index of the first show with this name (`find_if`). */
  function FindShow(programs: seq<Show>, name: string): (r: Option<nat>)
    ensures r.None? <==> forall i :: 0 <= i < |programs| ==> programs[i].name != name
    ensures r.Some? ==> r.value < |programs| && programs[r.value].name == name
    ensures r.Some? ==> forall i :: 0 <= i < r.value ==> programs[i].name != name
  {
    if programs == [] then None
    else if programs[0].name == name then Some(0)
    else match FindShow(programs[1..], name)
      case None => None
      case Some(k) => Some(k + 1)
  }

  /** Index of the first channel with this name (`find_if`). */
  function FindChannel(channels: seq<Channel>, name: string): (r: Option<nat>)
    ensures r.None? <==> forall i :: 0 <= i < |channels| ==> channels[i].name != name
    ensures r.Some? ==> r.value < |channels| && channels[r.value].name == name
    ensures r.Some? ==> forall i :: 0 <= i < r.value ==> channels[i].name != name
  {
    if channels == [] then None
    else if channels[0].name == name then Some(0)
    else match FindChannel(channels[1..], name)
      case None => None
      case Some(k) => Some(k + 1)
  }

  /** The lines typed at the show editor's prompts, in prompt order; an empty line keeps the field. */
  datatype ShowPatch = ShowPatch(name: string, category: string, startTime: string,
                                 duration: string, dayOfWeek: string, channelCode: string)

  /** The lines typed at the channel editor's prompts; an empty line keeps the field. */
  datatype ChannelPatch = ChannelPatch(name: string, originCountry: string)

  /** How an edit ended: completed, or cut short by a failed name or channel check. */
  datatype EditOutcome = Edited | NameTaken | NoSuchChannel

  datatype ShowEdit = ShowEdit(record: Show, outcome: EditOutcome)

  datatype ChannelEdit = ChannelEdit(record: Channel, outcome: EditOutcome)

  /** The start-time step of editShow: a valid "H:M" replaces the time, anything else keeps it. */
  function EditClock(s: Show, text: string): (r: Show)
    ensures ReadClock(text).Clock? && ValidClock(ReadClock(text).hour, ReadClock(text).minute) ==>
      r == s.(startHour := ReadClock(text).hour, startMinute := ReadClock(text).minute)
    ensures !(ReadClock(text).Clock? && ValidClock(ReadClock(text).hour, ReadClock(text).minute)) ==> r == s
    ensures ':' !in text ==> r == s
    ensures r == s.(startHour := r.startHour, startMinute := r.startMinute)
    ensures (r.startHour, r.startMinute) == (s.startHour, s.startMinute) || ValidClock(r.startHour, r.startMinute)
  {
    if text == [] then s
    else match ReadClock(text)
      case Clock(h, m) => if ValidClock(h, m) then s.(startHour := h, startMinute := m) else s
      case _ => s
  }

  /** The duration step of editShow: a positive number replaces the duration, anything else keeps it. */
  function EditDuration(s: Show, text: string): (r: Show)
    ensures Stoi(text).Some? && Stoi(text).value > 0 ==> r == s.(duration := Stoi(text).value)
    ensures !(Stoi(text).Some? && Stoi(text).value > 0) ==> r == s
    ensures r == s.(duration := r.duration)
    ensures r.duration == s.duration || r.duration > 0
  {
    if text == [] then s
    else match Stoi(text)
      case Some(d) => if d <= 0 then s else s.(duration := d)
      case None => s
  }

  /**
   * editShow on the record `s` found under the typed `name`: the fields are
   * replaced one after another, and a failed name or channel check stops
   * there, keeping what was already replaced. The name check compares with
   * the name as typed, not encoded; the day of week is stored unencoded.
   */
  function EditShowRecord(programs: seq<Show>, channels: seq<Channel>, name: string, s: Show, p: ShowPatch): (r: ShowEdit)
    ensures r.outcome == NameTaken <==>
      Encode(p.name) != [] && exists i :: 0 <= i < |programs| && programs[i].name == Encode(p.name) && programs[i].name != name
    ensures r.outcome == NameTaken ==> r.record == s
    ensures r.outcome == NoSuchChannel <==>
      r.outcome != NameTaken && p.channelCode != [] && forall j :: 0 <= j < |channels| ==> channels[j].code != p.channelCode
    ensures r.outcome != NameTaken ==> r.record.name == (if p.name == [] then s.name else Encode(p.name))
    ensures r.outcome != NameTaken ==> r.record.category == (if p.category == [] then s.category else Encode(p.category))
    ensures r.outcome != NameTaken ==> r.record.dayOfWeek == (if p.dayOfWeek == [] then s.dayOfWeek else p.dayOfWeek)
    ensures r.record.channelCode == (if r.outcome == Edited && p.channelCode != [] then p.channelCode else s.channelCode)
    ensures ValidClock(s.startHour, s.startMinute) ==> ValidClock(r.record.startHour, r.record.startMinute)
    ensures s.duration > 0 ==> r.record.duration > 0
  {
    var newName := Encode(p.name);
    if newName != [] && exists i | 0 <= i < |programs| :: programs[i].name == newName && programs[i].name != name then
      ShowEdit(s, NameTaken)
    else
      var s1 := if newName != [] then s.(name := newName) else s;
      var newCategory := Encode(p.category);
      var s2 := if newCategory != [] then s1.(category := newCategory) else s1;
      var s3 := EditClock(s2, p.startTime);
      var s4 := EditDuration(s3, p.duration);
      var s5 := if p.dayOfWeek != [] then s4.(dayOfWeek := p.dayOfWeek) else s4;
      if p.channelCode == [] then ShowEdit(s5, Edited)
      else if exists j | 0 <= j < |channels| :: channels[j].code == p.channelCode then
        ShowEdit(s5.(channelCode := p.channelCode), Edited)
      else ShowEdit(s5, NoSuchChannel)
  }

  /**
   * editShow's time and duration steps: unless the name check refused, the
   * record ends with the clock and the duration those steps give the found
   * show, whatever the other fields did.
   */
  lemma EditShowTimes(programs: seq<Show>, channels: seq<Channel>, name: string, s: Show, p: ShowPatch)
    ensures var r := EditShowRecord(programs, channels, name, s, p);
      r.outcome != NameTaken ==>
        && r.record.startHour == EditClock(s, p.startTime).startHour
        && r.record.startMinute == EditClock(s, p.startTime).startMinute
        && r.record.duration == EditDuration(s, p.duration).duration
  {
    var r := EditShowRecord(programs, channels, name, s, p);
    if r.outcome != NameTaken {
      var newName := Encode(p.name);
      var s1 := if newName != [] then s.(name := newName) else s;
      var newCategory := Encode(p.category);
      var s2 := if newCategory != [] then s1.(category := newCategory) else s1;
      var s3 := EditClock(s2, p.startTime);
      var s4 := EditDuration(s3, p.duration);
      assert (s3.startHour, s3.startMinute) == (EditClock(s, p.startTime).startHour, EditClock(s, p.startTime).startMinute);
      assert s4.duration == EditDuration(s, p.duration).duration;
      assert (r.record.startHour, r.record.startMinute, r.record.duration) == (s4.startHour, s4.startMinute, s4.duration);
    }
  }

  /**
   * Editing the first show found under `name` keeps show names unique and
   * space-free, provided they were before.
   */
  lemma EditShowKeepsUniqueNames(programs: seq<Show>, channels: seq<Channel>, name: string, p: ShowPatch)
    requires FindShow(programs, Encode(name)).Some?
    requires UniqueShowNames(programs) && ShowNamesSpaceFree(programs)
    ensures var i := FindShow(programs, Encode(name)).value;
      var r := EditShowRecord(programs, channels, name, programs[i], p);
      UniqueShowNames(programs[i := r.record]) && ShowNamesSpaceFree(programs[i := r.record])
  {
    var i := FindShow(programs, Encode(name)).value;
    var r := EditShowRecord(programs, channels, name, programs[i], p);
    var ps := programs[i := r.record];
    if r.outcome != NameTaken && p.name != [] {
      var n := Encode(p.name);
      // the check let through only clashes with the name as typed
      if ' ' in name {
        forall j | 0 <= j < |programs| ensures programs[j].name != n {
          assert ' ' !in programs[j].name;
        }
      } else {
        EncodeSpaceFree(name);
        forall j | 0 <= j < |programs| && j != i ensures programs[j].name != n {
          assert programs[j].name != programs[i].name;
        }
      }
    }
    forall a, b | 0 <= a < b < |ps| ensures ps[a].name != ps[b].name {
      if a != i && b != i {
        assert ps[a] == programs[a] && ps[b] == programs[b];
      }
    }
  }

  /** Editing a show keeps every channel reference valid: a new code is checked first. */
  lemma EditShowKeepsReferences(programs: seq<Show>, channels: seq<Channel>, name: string, i: nat, p: ShowPatch)
    requires i < |programs|
    requires ShowsReferenceChannels(programs, channels)
    ensures var r := EditShowRecord(programs, channels, name, programs[i], p);
      ShowsReferenceChannels(programs[i := r.record], channels)
  {
    var r := EditShowRecord(programs, channels, name, programs[i], p);
    var ps := programs[i := r.record];
    forall k | 0 <= k < |ps| ensures exists j :: 0 <= j < |channels| && channels[j].code == ps[k].channelCode {
      if k != i {
        assert ps[k] == programs[k];
      } else if r.record.channelCode == programs[i].channelCode {
        assert ps[k].channelCode == programs[i].channelCode;
      }
    }
  }

  /**
   * Because the name check compares with the typed name, a show whose name
   * holds a space cannot be renamed to its own name: its stored (encoded)
   * name differs from the typed one and counts as a clash.
   */
  lemma EditShowSelfRenameRefused(programs: seq<Show>, channels: seq<Channel>, name: string, i: nat, p: ShowPatch)
    requires i < |programs| && programs[i].name == Encode(name)
    requires ' ' in name && p.name == name
    ensures EditShowRecord(programs, channels, name, programs[i], p).outcome == NameTaken
  {
    assert Encode(name) != name by {
      assert ' ' !in Encode(name);
    }
    assert Encode(name) != [];
  }

  /**
   * An unknown channel code stops the edit after the earlier fields were
   * replaced: the record comes back changed although the edit failed.
   */
  lemma EditShowNoRollback(programs: seq<Show>, channels: seq<Channel>, name: string, s: Show, p: ShowPatch)
    requires p.name == [] && p.category != [] && Encode(p.category) != s.category
    requires p.channelCode != [] && forall j :: 0 <= j < |channels| ==> channels[j].code != p.channelCode
    ensures var r := EditShowRecord(programs, channels, name, s, p);
      r.outcome == NoSuchChannel && r.record != s && r.record.category == Encode(p.category)
  {
  }

  /**
   * editChannel on the record `c`: the name check runs on the typed line
   * even when it is blank, and compares with the record's current name.
   */
  function EditChannelRecord(channels: seq<Channel>, c: Channel, p: ChannelPatch): (r: ChannelEdit)
    ensures r.outcome != NoSuchChannel
    ensures r.record.code == c.code
    ensures r.outcome == NameTaken <==>
      exists k :: 0 <= k < |channels| && channels[k].name == Encode(p.name) && channels[k].name != c.name
    ensures r.outcome == NameTaken ==> r.record == c
    ensures r.outcome == Edited ==> r.record.name == (if p.name == [] then c.name else Encode(p.name))
    ensures r.outcome == Edited ==>
      r.record.originCountry == (if p.originCountry == [] then c.originCountry else Encode(p.originCountry))
  {
    var newName := Encode(p.name);
    if exists k | 0 <= k < |channels| :: channels[k].name == newName && channels[k].name != c.name then
      ChannelEdit(c, NameTaken)
    else
      var c1 := if newName != [] then c.(name := newName) else c;
      if p.originCountry != [] then ChannelEdit(c1.(originCountry := Encode(p.originCountry)), Edited)
      else ChannelEdit(c1, Edited)
  }

  /** Editing a channel keeps channel names and codes unique. */
  lemma EditChannelKeepsInvariants(channels: seq<Channel>, i: nat, p: ChannelPatch)
    requires i < |channels|
    requires UniqueChannelNames(channels) && UniqueChannelCodes(channels)
    ensures var r := EditChannelRecord(channels, channels[i], p);
      UniqueChannelNames(channels[i := r.record]) && UniqueChannelCodes(channels[i := r.record])
  {
    var r := EditChannelRecord(channels, channels[i], p);
    var cs := channels[i := r.record];
    forall a, b | 0 <= a < b < |cs| ensures cs[a].name != cs[b].name && cs[a].code != cs[b].code {
      if a != i && b != i {
        assert cs[a] == channels[a] && cs[b] == channels[b];
      } else if r.record.name != channels[i].name {
        var other := if a == i then b else a;
        assert cs[other] == channels[other];
        assert channels[other].name != r.record.name;
      }
    }
  }

  /** Editing a channel never changes its code, so every show keeps its channel. */
  lemma EditChannelKeepsReferences(programs: seq<Show>, channels: seq<Channel>, i: nat, p: ChannelPatch)
    requires i < |channels|
    requires ShowsReferenceChannels(programs, channels)
    ensures var r := EditChannelRecord(channels, channels[i], p);
      ShowsReferenceChannels(programs, channels[i := r.record])
  {
    var cs := channels[i := EditChannelRecord(channels, channels[i], p).record];
    assert forall j :: 0 <= j < |cs| ==> cs[j].code == channels[j].code;
    forall k | 0 <= k < |programs| ensures exists j :: 0 <= j < |cs| && cs[j].code == programs[k].channelCode {
      var j :| 0 <= j < |channels| && channels[j].code == programs[k].channelCode;
      assert cs[j].code == programs[k].channelCode;
    }
  }

  /**
   * A blank name line still runs the name check: if some other channel has
   * an empty name, the edit is refused.
   */
  lemma EditChannelBlankNameRefused(channels: seq<Channel>, c: Channel, p: ChannelPatch, k: nat)
    requires p.name == [] && c.name != []
    requires k < |channels| && channels[k].name == []
    ensures EditChannelRecord(channels, c, p).outcome == NameTaken
  {
  }

}
