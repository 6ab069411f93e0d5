/**
  The record types the pipeline passes around: the working `Profile`
  (src/schemas/data_classes.py), the detected `Character` mention and the
  merge oracle's `ProfileData` (src/schemas/output_structures.py), and the
  nine-field profile document that the nodes store as `profile_json`.
 */
module Schemas {

  /** A working profile; `id` is the store's `character_id`, or "" for a
      profile the resolver has just created. */
  datatype Profile = Profile(
    name: string,
    hint: string,
    age: string,
    role: string,
    physicalCharacteristics: seq<string>,
    personality: string,
    events: seq<string>,
    relationships: seq<string>,
    aliases: seq<string>,
    id: string)

  /** A detected mention (`Character`, also `LastAppearingCharacter`). */
  datatype Character = Character(name: string, hint: string)

  /** One profile as the merge oracle returns it; its relation list is
      called `relations` here and `relationships` everywhere else. */
  datatype ProfileData = ProfileData(
    name: string,
    hint: string,
    age: string,
    role: string,
    physicalCharacteristics: seq<string>,
    personality: string,
    events: seq<string>,
    relations: seq<string>,
    aliases: seq<string>,
    id: string)

  /** The document stored in the `profile_json` column: the nine profile
      fields, without the id (the id has its own column). */
  datatype ProfileDoc = ProfileDoc(
    name: string,
    hint: string,
    age: string,
    role: string,
    physicalCharacteristics: seq<string>,
    personality: string,
    events: seq<string>,
    relationships: seq<string>,
    aliases: seq<string>)
}
