/**
 The text uniqualizer of the bot: ten ASCII letters are replaced by stylised
 mathematical-script look-alikes and every other character is passed through.
 Characters are Unicode scalar values, so a replacement outside the Basic
 Multilingual Plane is one character, as it is for the bot.
 */
module TextTransform {
  import opened Substitution
  import opened ScriptLetters

  /** The table of transform_text, exactly as the bot has it. */
  const Mapping: Table := map[
    'A' := '\U{1D49C}', 'B' := '\U{1D49D}', 'C' := '\U{1D49E}', 'D' := '\U{1D49F}', 'E' := '\U{1D4A0}',
    'a' := '\U{1D4B6}', 'b' := '\U{1D4B7}', 'c' := '\U{1D4B8}', 'd' := '\U{1D4B9}', 'e' := '\U{1D4BA}'
  ]

  /** The keys of Mapping that are sent to a reserved code point. */
  const MisencodedKeys: set<char> := {'B', 'E', 'e'}

  /** transform_text: the table applied to every character, misses kept as they are. */
  function TransformText(text: string): string
  {
    Substitute(Mapping, text)
  }

  /** The table's values, sent back to their keys. */
  const Unmapping: Table := map[
    '\U{1D49C}' := 'A', '\U{1D49D}' := 'B', '\U{1D49E}' := 'C', '\U{1D49F}' := 'D', '\U{1D4A0}' := 'E',
    '\U{1D4B6}' := 'a', '\U{1D4B7}' := 'b', '\U{1D4B8}' := 'c', '\U{1D4B9}' := 'd', '\U{1D4BA}' := 'e'
  ]

  /** Undoes TransformText on text that held no stylised letter to begin with. */
  function Restore(text: string): string
  {
    Substitute(Unmapping, text)
  }

  /** The table's keys are exactly the ten letters A-E and a-e. */
  lemma MappingKeys()
    ensures Mapping.Keys == {'A', 'B', 'C', 'D', 'E', 'a', 'b', 'c', 'd', 'e'}
  {
  }

  /** No value of the table is one of its keys. */
  lemma MappingValuesAreNotKeys()
    ensures ValuesAreNotKeys(Mapping)
  {
    MappingKeys();
    forall k | k in Mapping
      ensures Mapping[k] !in Mapping
    {
      assert k in {'A', 'B', 'C', 'D', 'E', 'a', 'b', 'c', 'd', 'e'};
    }
  }

  /** The ten values are pairwise distinct. */
  lemma MappingInjective()
    ensures InjectiveOnKeys(Mapping)
  {
    MappingKeys();
  }

  /** Unmapping is the inverse of the table: its keys are the table's values, each sent back to its key. */
  lemma UnmappingInvertsMapping()
    ensures Inverts(Mapping, Unmapping)
    ensures Unmapping.Keys == Mapping.Values
  {
    MappingKeys();
    forall k | k in Mapping
      ensures Mapping[k] in Unmapping && Unmapping[Mapping[k]] == k
    {
      assert k in {'A', 'B', 'C', 'D', 'E', 'a', 'b', 'c', 'd', 'e'};
    }
  }

  /** The output has exactly as many characters as the input. */
  lemma TransformTextLength(text: string)
    ensures |TransformText(text)| == |text|
  {
    SubstituteIsPointwise(Mapping, text);
  }

  /** A table key at position i becomes its table value at position i. */
  lemma TransformTextReplacesKeys(text: string)
    ensures |TransformText(text)| == |text|
    ensures forall i :: 0 <= i < |text| && text[i] in Mapping ==> TransformText(text)[i] == Mapping[text[i]]
  {
    SubstituteIsPointwise(Mapping, text);
  }

  /** Any character that is not a table key stays where it is, unchanged. */
  lemma TransformTextPassesThrough(text: string)
    ensures |TransformText(text)| == |text|
    ensures forall i :: 0 <= i < |text| && text[i] !in Mapping ==> TransformText(text)[i] == text[i]
  {
    SubstituteIsPointwise(Mapping, text);
  }

  /** A position changes if and only if it holds one of the ten keys. */
  lemma TransformTextChangesExactlyKeys(text: string)
    ensures |TransformText(text)| == |text|
    ensures forall i :: 0 <= i < |text| ==> (TransformText(text)[i] != text[i] <==> text[i] in Mapping)
  {
    SubstituteIsPointwise(Mapping, text);
    MappingValuesAreNotKeys();
  }

  /** The transform maps "" to "" and distributes over concatenation. */
  lemma TransformTextConcat(s: string, t: string)
    ensures TransformText("") == ""
    ensures TransformText(s + t) == TransformText(s) + TransformText(t)
  {
    SubstituteConcat(Mapping, s, t);
  }

  /** No character of the output is one of the ten keys. */
  lemma TransformTextHasNoKeys(text: string)
    ensures forall i :: 0 <= i < |TransformText(text)| ==> TransformText(text)[i] !in Mapping
  {
    MappingValuesAreNotKeys();
    SubstituteIsKeyFree(Mapping, text);
  }

  /** Transforming an already transformed text changes nothing. */
  lemma TransformTextIdempotent(text: string)
    ensures TransformText(TransformText(text)) == TransformText(text)
  {
    MappingValuesAreNotKeys();
    SubstituteIdempotent(Mapping, text);
  }

  /** Since distinct keys have distinct values, text free of stylised letters can be recovered. */
  lemma TransformTextRestorable(text: string)
    requires forall i :: 0 <= i < |text| ==> text[i] !in Mapping.Values
    ensures Restore(TransformText(text)) == text
  {
    UnmappingInvertsMapping();
    SubstituteRoundTrip(Mapping, Unmapping, text);
  }

  /** On arbitrary text the transform is not injective: a key and its stylised value give the same output. */
  lemma TransformTextNotInjective()
    ensures "A" != "\U{1D49C}" && TransformText("A") == TransformText("\U{1D49C}")
  {
  }

  /**
   As written, the table sends B, E and e to reserved code points of the
   mathematical script range; the other seven values are the script letters.
   */
  lemma MappingHitsReservedSlots()
    ensures forall k :: k in Mapping ==> (Mapping[k] in ReservedScriptSlots <==> k in MisencodedKeys)
    ensures forall k :: k in Mapping ==> (Mapping[k] == ScriptLetter(k) <==> k !in MisencodedKeys)
    ensures forall i :: 0 <= i < 3 ==> TransformText("BEe")[i] in ReservedScriptSlots
  {
    MappingKeys();
    forall k | k in Mapping
      ensures Mapping[k] in ReservedScriptSlots <==> k in MisencodedKeys
      ensures Mapping[k] == ScriptLetter(k) <==> k !in MisencodedKeys
    {
      assert k in {'A', 'B', 'C', 'D', 'E', 'a', 'b', 'c', 'd', 'e'};
    }
    TransformTextReplacesKeys("BEe");
  }

  /** The table with the three reserved code points replaced by the assigned script letters. */
  const IntendedMapping: Table := map[
    'A' := '\U{1D49C}', 'B' := '\U{212C}', 'C' := '\U{1D49E}', 'D' := '\U{1D49F}', 'E' := '\U{2130}',
    'a' := '\U{1D4B6}', 'b' := '\U{1D4B7}', 'c' := '\U{1D4B8}', 'd' := '\U{1D4B9}', 'e' := '\U{212F}'
  ]

  function TransformTextIntended(text: string): string
  {
    Substitute(IntendedMapping, text)
  }

  /** The corrected table has the same ten keys as the bot's. */
  lemma IntendedMappingKeys()
    ensures IntendedMapping.Keys == {'A', 'B', 'C', 'D', 'E', 'a', 'b', 'c', 'd', 'e'}
    ensures IntendedMapping.Keys == Mapping.Keys
  {
    MappingKeys();
  }

  /** The corrected table sends each key to its script letter, so it uses no reserved slot. */
  lemma IntendedMappingIsScript()
    ensures forall k :: k in IntendedMapping ==> IntendedMapping[k] == ScriptLetter(k)
    ensures forall k :: k in IntendedMapping ==> IntendedMapping[k] !in ReservedScriptSlots
  {
    IntendedMappingKeys();
    MappingKeys();
    forall k | k in IntendedMapping
      ensures IntendedMapping[k] == ScriptLetter(k)
    {
      assert k in {'A', 'B', 'C', 'D', 'E', 'a', 'b', 'c', 'd', 'e'};
    }
  }

  /** No value of the corrected table is one of its keys. */
  lemma IntendedMappingValuesAreNotKeys()
    ensures ValuesAreNotKeys(IntendedMapping)
  {
    IntendedMappingKeys();
    forall k | k in IntendedMapping
      ensures IntendedMapping[k] !in IntendedMapping
    {
      assert k in {'A', 'B', 'C', 'D', 'E', 'a', 'b', 'c', 'd', 'e'};
    }
  }

  /** The ten values of the corrected table are pairwise distinct. */
  lemma IntendedMappingInjective()
    ensures InjectiveOnKeys(IntendedMapping)
  {
    IntendedMappingKeys();
  }

  /**
   The corrected transform writes the script letter of every key, adds no
   reserved code point, differs from the bot's only on B, E and e, and is
   idempotent.
   */
  lemma TransformTextIntendedIsScript(text: string)
    ensures |TransformTextIntended(text)| == |text|
    ensures forall i :: 0 <= i < |text| && text[i] in IntendedMapping ==>
      TransformTextIntended(text)[i] == ScriptLetter(text[i])
    ensures forall i :: 0 <= i < |text| && text[i] !in ReservedScriptSlots ==>
      TransformTextIntended(text)[i] !in ReservedScriptSlots
    ensures |TransformText(text)| == |text|
    ensures forall i :: 0 <= i < |text| && text[i] !in MisencodedKeys ==>
      TransformTextIntended(text)[i] == TransformText(text)[i]
    ensures TransformTextIntended(TransformTextIntended(text)) == TransformTextIntended(text)
  {
    IntendedMappingIsScript();
    IntendedMappingValuesAreNotKeys();
    IntendedMappingKeys();
    SubstituteIsPointwise(IntendedMapping, text);
    SubstituteIsPointwise(Mapping, text);
    SubstituteIdempotent(IntendedMapping, text);
  }
}
