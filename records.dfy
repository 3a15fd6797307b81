/**
 * The two record types of the store (tvmodule.h) and the invariants the
 * add and edit operations are meant to keep over the two collections.
 */
module Records {

  /** A scheduled broadcast. Text fields are stored encoded (spaces as '_'). */
  datatype Show = Show(
    name: string,
    category: string,
    startHour: int,
    startMinute: int,
    duration: int,        // in minutes
    dayOfWeek: string,
    channelCode: string)

  /** A broadcaster. The code is generated by the store. */
  datatype Channel = Channel(
    code: string,
    name: string,
    originCountry: string)

  /** No two shows share a name. */
  ghost predicate UniqueShowNames(programs: seq<Show>)
  {
    forall i, j :: 0 <= i < j < |programs| ==> programs[i].name != programs[j].name
  }

  /** No two channels share a name. */
  ghost predicate UniqueChannelNames(channels: seq<Channel>)
  {
    forall i, j :: 0 <= i < j < |channels| ==> channels[i].name != channels[j].name
  }

  /** No two channels share a code. */
  ghost predicate UniqueChannelCodes(channels: seq<Channel>)
  {
    forall i, j :: 0 <= i < j < |channels| ==> channels[i].code != channels[j].code
  }

  /** Every show's channel code names an existing channel. */
  ghost predicate ShowsReferenceChannels(programs: seq<Show>, channels: seq<Channel>)
  {
    forall i :: 0 <= i < |programs| ==>
      exists j :: 0 <= j < |channels| && channels[j].code == programs[i].channelCode
  }

  /** Stored show names never contain a raw space (they are encoded or read as one token). */
  ghost predicate ShowNamesSpaceFree(programs: seq<Show>)
  {
    forall i :: 0 <= i < |programs| ==> ' ' !in programs[i].name
  }

}
