/**
 * The card records that pass between the card manager, the store and the
 * image generator. The source passes Python dicts; each shape it builds gets
 * its own datatype here, and `CardFields` is the view the display code reads
 * with `dict.get`.
 */
module Cards {
  import opened Wrappers

  /** The rarities `_determine_rarity` draws from, in the source's order. */
  const Rarities: seq<string> := ["common", "uncommon", "rare", "epic", "legendary"]

  predicate IsRarity(r: string) { r in Rarities }

  /** One card of a spawn as `_get_random_art_cards` builds it (`id` is the slot number 1..n). */
  datatype ArtCard = ArtCard(id: int, name: string, imagePath: string, rarity: string, filename: string)

  /** An `ArtCard` after `create_spawn_session` added its `spawn_id`. */
  datatype SpawnedArtCard = SpawnedArtCard(card: ArtCard, spawnId: int)

  /** One entry of `get_user_cards`: the joined card name, the rarity and when it was claimed. */
  datatype OwnedCard = OwnedCard(name: string, rarity: string, claimedAt: int)

  /** The keys the display code looks up with `dict.get`; `None` is a missing key. */
  datatype CardFields = CardFields(name: Option<string>, rarity: Option<string>, imagePath: Option<string>)

  function SpawnedFields(c: SpawnedArtCard): CardFields {
    CardFields(Some(c.card.name), Some(c.card.rarity), Some(c.card.imagePath))
  }

  /** The spawn result as the strip image reads it. */
  function SpawnedFieldsOf(cs: seq<SpawnedArtCard>): seq<CardFields> {
    seq(|cs|, i requires 0 <= i < |cs| => SpawnedFields(cs[i]))
  }

  function OwnedFields(c: OwnedCard): CardFields {
    CardFields(Some(c.name), Some(c.rarity), None)
  }
}
