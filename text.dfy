/**
 * Character classes and the two text transformations of the store:
 * the space/underscore field encoding (tvmodule.cpp encode/decode) and
 * the ASCII lower-casing used by the day query.
 */
module Text {

  /** C `isspace` in the default locale: space, tab, newline, vertical tab, form feed, return. */
  predicate IsSpace(c: char)
  {
    c == ' ' || ('\t' <= c <= '\r')
  }

  predicate IsDigit(c: char)
  {
    '0' <= c <= '9'
  }

  /** A string that the whitespace tokeniser reads back as (part of) one token. */
  predicate NoWhitespace(s: string)
  {
    forall i :: 0 <= i < |s| ==> !IsSpace(s[i])
  }

  /** The only whitespace character in `s`, if any, is the plain space. */
  predicate OnlyPlainSpaces(s: string)
  {
    forall i :: 0 <= i < |s| ==> IsSpace(s[i]) ==> s[i] == ' '
  }

  /** Field encoding: every space becomes an underscore, everything else is kept. */
  function Encode(s: string): (r: string)
    ensures |r| == |s|
    ensures ' ' !in r
    ensures forall i :: 0 <= i < |s| ==> r[i] == (if s[i] == ' ' then '_' else s[i])
  {
    if s == [] then [] else [if s[0] == ' ' then '_' else s[0]] + Encode(s[1..])
  }

  /** Field decoding: every underscore becomes a space, everything else is kept. */
  function Decode(s: string): (r: string)
    ensures |r| == |s|
    ensures '_' !in r
    ensures forall i :: 0 <= i < |s| ==> r[i] == (if s[i] == '_' then ' ' else s[i])
  {
    if s == [] then [] else [if s[0] == '_' then ' ' else s[0]] + Decode(s[1..])
  }

  /** Decoding undoes encoding for every text that has no underscore of its own. */
  lemma DecodeEncode(s: string)
    requires '_' !in s
    ensures Decode(Encode(s)) == s
  {
    var r := Decode(Encode(s));
    assert |r| == |s|;
    forall i | 0 <= i < |s| ensures r[i] == s[i] {
      assert s[i] != '_' by { assert s[i] in s; }
    }
  }

  /** Encoding undoes decoding for every stored text that has no raw space. */
  lemma EncodeDecode(s: string)
    requires ' ' !in s
    ensures Encode(Decode(s)) == s
  {
    var r := Encode(Decode(s));
    forall i | 0 <= i < |s| ensures r[i] == s[i] {
      assert s[i] != ' ' by { assert s[i] in s; }
    }
  }

  /** Encoding leaves a text without spaces as it is. */
  lemma EncodeSpaceFree(s: string)
    requires ' ' !in s
    ensures Encode(s) == s
  {
    var r := Encode(s);
    forall i | 0 <= i < |s| ensures r[i] == s[i] {
      assert s[i] != ' ' by { assert s[i] in s; }
    }
  }

  /** An encoded text is one token for the tokeniser when its only whitespace was plain spaces. */
  lemma EncodeNoWhitespace(s: string)
    requires OnlyPlainSpaces(s)
    ensures NoWhitespace(Encode(s))
  {
  }

  /** The scheme is lossy: an underscore typed by the user comes back as a space. */
  lemma EncodeIsLossy()
    ensures Encode("a b") == Encode("a_b")
    ensures Decode(Encode("a_b")) != "a_b"
  {
    assert Encode("a_b")[1] == '_';
    assert Decode(Encode("a_b"))[1] == ' ';
  }

  /** The loop of tvmodule.cpp encode: one character at a time into a fresh string. */
  method EncodeText(s: string) returns (r: string)
    ensures r == Encode(s)
  {
    r := "";
    for i := 0 to |s|
      invariant |r| == i
      invariant forall k :: 0 <= k < i ==> r[k] == (if s[k] == ' ' then '_' else s[k])
    {
      r := r + [if s[i] == ' ' then '_' else s[i]];
    }
  }

  /** The loop of tvmodule.cpp decode. */
  method DecodeText(s: string) returns (r: string)
    ensures r == Decode(s)
  {
    r := "";
    for i := 0 to |s|
      invariant |r| == i
      invariant forall k :: 0 <= k < i ==> r[k] == (if s[k] == '_' then ' ' else s[k])
    {
      r := r + [if s[i] == '_' then ' ' else s[i]];
    }
  }

  /** C `tolower` in the default locale: only 'A' to 'Z' change. */
  function LowerChar(c: char): (r: char)
    ensures 'A' <= c <= 'Z' ==> r as int == c as int + 32
    ensures !('A' <= c <= 'Z') ==> r == c
  {
    if 'A' <= c <= 'Z' then (c as int + 32) as char else c
  }

  /** Lower-cases every character (the `transform(..., ::tolower)` of the day query). */
  function ToLower(s: string): (r: string)
    ensures |r| == |s|
    ensures forall i :: 0 <= i < |s| ==> r[i] == LowerChar(s[i])
  {
    if s == [] then [] else [LowerChar(s[0])] + ToLower(s[1..])
  }

  /** Lower-casing twice is lower-casing once. */
  lemma ToLowerIdempotent(s: string)
    ensures ToLower(ToLower(s)) == ToLower(s)
  {
    var r := ToLower(ToLower(s));
    forall i | 0 <= i < |s| ensures r[i] == ToLower(s)[i] {
    }
  }

}
