/**
 The Unicode script forms of the ASCII letters. Most of them sit in the
 Mathematical Alphanumeric Symbols block (capitals from U+1D49C, small letters
 from U+1D4B6), but eleven were already encoded in the Letterlike Symbols block;
 the slots those letters would occupy in the mathematical block are reserved
 and carry no character.
 */
module ScriptLetters {

  /** The reserved slots of the mathematical script range, for B E F H I L M R e g o. */
  const ReservedScriptSlots: set<char> := {
    '\U{1D49D}', '\U{1D4A0}', '\U{1D4A1}', '\U{1D4A3}', '\U{1D4A4}', '\U{1D4A7}',
    '\U{1D4A8}', '\U{1D4AD}', '\U{1D4BA}', '\U{1D4BC}', '\U{1D4C4}'
  }

  predicate IsAsciiLetter(c: char)
  {
    ('A' <= c <= 'Z') || ('a' <= c <= 'z')
  }

  /** The assigned Unicode character for the script form of an ASCII letter. */
  function ScriptLetter(c: char): (r: char)
    requires IsAsciiLetter(c)
    ensures r !in ReservedScriptSlots
    ensures !IsAsciiLetter(r)
  {
    match c
    case 'B' => '\U{212C}'
    case 'E' => '\U{2130}'
    case 'F' => '\U{2131}'
    case 'H' => '\U{210B}'
    case 'I' => '\U{2110}'
    case 'L' => '\U{2112}'
    case 'M' => '\U{2133}'
    case 'R' => '\U{211B}'
    case 'e' => '\U{212F}'
    case 'g' => '\U{210A}'
    case 'o' => '\U{2134}'
    case _ =>
      if 'A' <= c <= 'Z' then (0x1D49C + (c as int - 'A' as int)) as char
      else (0x1D4B6 + (c as int - 'a' as int)) as char
  }
}
