# Cardcaptor card store, card manager and card layout in Dafny

Cardcaptor is a Discord bot that runs a card-collecting game. Its core has
three parts:

- **Spawn.** It turns the image files of an `art` folder into cards. It
  draws a few of them at random as a spawn, and each drawn card gets a
  rarity.
- **Claim.** It records the spawn in a SQLite database. It then decides
  which user may claim each spawned card.
- **Display.** It lays out the cards of a spawn or of a user's collection
  on an image.

This project models that core and proves what it guarantees.

| file | module | models |
|---|---|---|
| `wrappers.dfy` | `Wrappers` | `Option` and `Result` |
| `text.dfy` | `Text` | the Python string operations the card code uses: `lower`, `capitalize`, `title`, `endswith`, `replace`, `split()`, `' '.join`, `os.path.splitext` |
| `cards.dfy` | `Cards` | the card records passed between the parts, and the five rarities |
| `store.dfy` | `Store` | `DatabaseManager` (database/db_manager.py) |
| `card_manager.dfy` | `CardManager` | `CardManager` (modules/card_manager.py) |
| `layout.dfy` | `Layout` | the integer layout of `ImageGenerator` (modules/image_generator.py) |

**The store.** It holds three tables: `cards`, `user_cards` and
`spawned_cards`. Each has an autoincrement counter.

- `StoreState` holds the tables as a value.
- Every operation is a function of the old state: `AfterSpawn`,
  `AfterClaim` and `AfterAddCard`.
- The lemmas beside these functions are the claim protocol's guarantees:
  - an unknown spawn id and a claimed spawn both answer `already_claimed`;
  - a user who owns the pair is refused, and the spawn stays open for others;
  - a successful claim marks exactly one row and appends exactly one
    ownership row;
  - a claimed spawn stays claimed;
  - no user ever owns the same (card id, rarity) pair twice.
- `ValidState` collects the invariants every operation preserves. These
  are:
  - ids are unique and increasing;
  - claimed rows carry a claimant and a time;
  - every claimed row has an ownership row for its claimant, card id and
    rarity, and no two claimed rows share a claimant, card id and rarity;
  - the number of claimed spawns equals the number of ownership rows;
  - claim times are ordered.
- The class `Store.CardStore` keeps the tables in fields. Each method is
  proved to move the fields exactly as the matching function says, and to
  keep `Valid()`.
- Timestamps are an argument `now`. It never goes below the store's
  `clock` field, which is the last time it recorded.

**The card manager** takes the art folder as two inputs: a flag saying
whether the folder exists, and the list of names a directory listing
returns. Random choices are nondeterministic: `random.sample` and
`random.choices` become a choice among all admissible results, and every
contract holds for every choice.

**One consequence of the code as written.** The `id` of a spawned card is
its slot number 1..n in the spawn (modules/card_manager.py:55).
`create_spawn_session` stores that number as the spawn row's `card_id`.
Ownership is therefore keyed on (user, slot, rarity). Take a user who won
the slot-1 `rare` card of one spawn. They are refused
(`Store.OwnerRefusedSamePair`) the slot-1 `rare` card of every later spawn,
whatever image it shows. `get_user_cards` joins the slot number against the
`cards` catalogue, so the joined name is that of catalogue card n, not the
drawn image. When the catalogue has no card n, the join drops the row
(database/db_manager.py:189), and the claimed card is missing from the
user's collection altogether. The model keeps this behaviour.

**The layout** covers three cases:

- the spawn strip, one row of 200×280 cards with 20-pixel spacing;
- the collection grid, four columns under a 50-pixel title band, or a fixed
  400×300 image for an empty collection;
- the parts of one card: the art area, the name, and the rarity disk.

It is proved that cards lie on the canvas and keep a spacing apart. It is
also proved that the parts of a card stay inside the card.

## Model

| member | source | states |
|---|---|---|
| Store.EmptyIsValid | database/db_manager.py:24-52 | freshly created tables are empty, with both counters at 1, and satisfy every store invariant |
| Store.FindSpawnUnique | database/db_manager.py:143-144 | with unique spawn ids, looking up an id finds the one row that has it |
| Store.ClaimMissingOrClaimed | database/db_manager.py:143-147 | an unknown spawn id or one whose row is claimed answers `already_claimed` and leaves all tables unchanged |
| Store.ClaimUserOwnsKeepsOpen | database/db_manager.py:149-155 | a user who owns the spawn's (card id, rarity) gets `user_owns`, nothing changes, and a user who does not own the pair can still claim the spawn |
| Store.ClaimSuccessEffect | database/db_manager.py:158-170 | on `success` the open spawn row becomes claimed by the user at `now`, exactly one ownership row with the user, username, card id and rarity is appended, and the cards table and counters are unchanged |
| Store.ClaimPreservesValid | database/db_manager.py:149-170 | a claim keeps every store invariant, in particular that no user owns the same (card id, rarity) twice, that every claimed row has an ownership row of its own (no two claimed rows share a claimant, card id and rarity), and that the counts of claimed rows and ownership rows agree |
| Store.SecondClaimRefused | database/db_manager.py:146-147 | after a successful claim, a second claim of the same spawn id by anyone answers `already_claimed` and appends nothing |
| Store.OwnerRefusedSamePair | database/db_manager.py:153-155 | after a user claims a spawn, the same user is refused (`user_owns`) on any open spawn with the same card id and rarity |
| Store.ClaimKeepsClaimed | database/db_manager.py:158-162 | a claimed spawn row is unchanged by any claim: claimed is absorbing |
| Store.SpawnSessionShape | database/db_manager.py:122-136 | a spawn session returns the given cards in order, each with a fresh spawn id, increasing from the next autoincrement id; it appends one unclaimed row per card with that card's id and rarity, and leaves the other tables unchanged |
| Store.SpawnPreservesValid | database/db_manager.py:122-135 | opening a spawn session keeps every store invariant |
| Store.SpawnKeepsRows | database/db_manager.py:124-127 | opening a spawn session leaves every existing spawn row as it was |
| Store.AddCardPreservesValid | database/db_manager.py:232-241 | adding a catalogue card keeps every store invariant |
| Store.UserCollectionMembers | database/db_manager.py:186-195 | an entry is in a user's collection exactly when one of the user's ownership rows joins to a catalogue card with that name, and the entry has that row's rarity and claim time |
| Store.UserCollectionRows | database/db_manager.py:186-195 | entry i of a user's collection is the joined entry of the i-th joining row counted from the newest, so each of the user's rows whose card is in the catalogue gives exactly one entry, copies included |
| Store.MarkedPositionsComplete | database/db_manager.py:186-191 | the positions the join keeps are listed from the newest row back, each once, and none is missed |
| Store.UserCollectionCount | database/db_manager.py:186-195 | the collection has as many entries as the user has ownership rows whose card id is in the catalogue |
| Store.UserCollectionNewestFirst | database/db_manager.py:186-191 | a user's collection is ordered by claim time, newest first |
| Store.MysqlConnectionString | database/db_manager.py:228-230 | the connection URL is built exactly when all five keys are present; otherwise the failure names the first missing key in the order the URL reads them |
| Store.CardStore.CreateSpawnSession | database/db_manager.py:117-136 | the loop inserts the rows and annotates the cards exactly as the spawn session specification says, and keeps `Valid()` |
| Store.CardStore.ClaimCard | database/db_manager.py:138-170 | returns one of the three strings, the one the claim rules give; moves the tables exactly as the claim specification says; changes nothing unless it returns `success`; keeps `Valid()` |
| Store.CardStore.IsCardClaimed | database/db_manager.py:172-180 | true exactly when a spawn row with that id is claimed; false for an unknown id |
| Store.CardStore.GetUserCards | database/db_manager.py:182-195 | returns the user's collection, newest claim first, with one entry per ownership row of the user whose card is in the catalogue |
| Store.CardStore.GetCardInfo | database/db_manager.py:197-203 | finds the catalogue card with that id, or nothing when no card has it |
| Store.CardStore.GetAllCards | database/db_manager.py:205-211 | returns the whole catalogue |
| Store.CardStore.GetAllClaimedCards | database/db_manager.py:213-219 | one (card id, rarity) entry per ownership row, in table order |
| Store.CardStore.AddCard | database/db_manager.py:232-241 | appends one catalogue row with the next autoincrement id, which no earlier card has, returns that id, and leaves the other tables unchanged |
| Text.JoinSplit | modules/card_manager.py:73 | joining the words of `split()` with single spaces gives the input with every whitespace run collapsed to one space and both ends trimmed; with `Text.SplitJoin` this fixes the words and their order |
| Text.SplitJoin | modules/card_manager.py:73 | splitting a space-joined list of words gives back the words |
| Text.JoinWellSpaced | modules/card_manager.py:73 | joining words with single spaces gives no leading, trailing or doubled space |
| Text.TitleIgnoresCase | modules/card_manager.py:146 | `title()` gives the same result for a string and its lower-cased form |
| Text.SplitExtOfFileName | modules/card_manager.py:67 | `splitext` of a plain `stem.ext` name gives `stem` and `.ext` |
| Text.SplitExtParts | modules/card_manager.py:67 | the two parts of `splitext` concatenate to the path, and a non-empty extension starts at a dot, holds no other dot or slash, and follows a non-dot character of the last path component; an empty extension means the last component has no dot after a non-dot character |
| CardManager.ImageFileIgnoresCase | modules/card_manager.py:36-37 | whether a name counts as an image does not depend on its letter case |
| CardManager.ImagesPartition | modules/card_manager.py:178-184 | image and non-image names split the listing: together they hold every name as often as it occurs, a name is an image name exactly when it is listed and passes the extension test, and likewise for non-images |
| CardManager.ImagesNoDuplicates | modules/card_manager.py:36-37 | filtering a listing without repeated names gives image names without repeats |
| CardManager.ValidateArtFolder | modules/card_manager.py:167-188 | for an existing folder the valid and invalid files are the image and non-image names in listing order, their union is the listing, and the count is the number of valid files; for a missing folder both lists are empty and the count is 0 |
| CardManager.ExtractCardName | modules/card_manager.py:64-75 | the name has no `_` or `-`, no whitespace except single inner spaces, and its words are exactly the capitalised words of the name without its extension, with `_` and `-` read as spaces |
| CardManager.ExtractCardNameDropsExtension | modules/card_manager.py:67 | `stem.ext` gives the same card name as `stem` |
| CardManager.ExtractCardNameExample | modules/card_manager.py:64-75 | `red_fox-kit.png` gives "Red Fox Kit" |
| CardManager.DetermineRarity | modules/card_manager.py:77-81 | the chosen rarity is one of common, uncommon, rare, epic and legendary |
| CardManager.GetRarityColor | modules/card_manager.py:83-92 | the five rarities get their listed colour codes and every other string gets 0x808080 |
| CardManager.ArtPath | modules/card_manager.py:57 | joining `art` with a name that has no slash gives `art/<name>` |
| CardManager.GetRandomArtCards | modules/card_manager.py:30-62 | a missing folder, a folder without images and a negative count each give their own error, in that order; otherwise each possible draw has min(count, number of images) cards, card i has id i+1, its filename is one of the images, its name and image path come from the filename, and its rarity is one of the five; without repeated names in the listing, no two drawn cards share a filename |
| CardManager.MakeCards | modules/card_manager.py:49-60 | card i of the built list is the slot card of the i-th sampled image (id i+1, name and path from that filename) with a rarity drawn from the five |
| CardManager.SampleIsDraw | modules/card_manager.py:47-60 | slot cards built from a sample without replacement of min(count, images) listing positions form a valid draw |
| CardManager.DrawImagePaths | modules/card_manager.py:57 | every drawn card's image path is `art/` followed by its filename |
| CardManager.SpawnCards | modules/card_manager.py:14-28 | on an error the store is unchanged; otherwise the store opens a spawn session for one admissible draw and the result is that draw annotated with its spawn ids |
| CardManager.GetCardStats | modules/card_manager.py:126-142 | the loop's counters are the counts of cards per rarity, with a missing rarity counted as common, and a total of the number of cards plus the number of cards whose rarity is the string `total` |
| CardManager.WrittenStatsTotalCollision | modules/card_manager.py:137-140 | one card whose rarity is `total` makes the returned total 2 for a list of one card |
| CardManager.IntendedStats | modules/card_manager.py:128-129 | the intended statistics have a total of exactly the number of cards |
| CardManager.WrittenStatsIntended | modules/card_manager.py:137-140 | when no card's rarity is `total`, the counters the code returns are the intended ones |
| CardManager.IntendedStatsAddUp | modules/card_manager.py:128-140 | the five counters sum to at most the total, and equal it exactly when every card's rarity is one of the five |
| CardManager.FormatCardInfoKnown | modules/card_manager.py:144-159 | a rarity whose lower-cased form is the k-th of the five rarities is shown with the k-th emoji and the k-th capitalised name, in any letter case; a missing rarity reads as common and a missing name as "Unknown Card" |
| CardManager.FormatCardInfoUnknown | modules/card_manager.py:157-159 | a rarity that title-cases to none of the five table keys gets the white emoji, and the line ends with that title-cased rarity in parentheses |
| CardManager.FormatOwnedCard | main.py:100-101 | a collection entry whose rarity is the k-th of the five, in any letter case, is listed as the k-th emoji, its joined name in bold and the k-th title |
| Layout.RarityRgbMatchesEmbedColour | modules/image_generator.py:21-27 | each drawing colour lies in 0..255 per channel, and for every rarity string it equals the embed colour code split into bytes, grey default included |
| Layout.RarityRgbDefaults | modules/image_generator.py:64-65 | a card without a rarity is drawn common grey, and an unknown rarity is drawn (128, 128, 128) |
| Layout.TruncateName | modules/image_generator.py:186-187 | a shown name has at most 20 characters; a name of up to 20 is shown unchanged, and a longer one as its first 17 characters followed by "..." |
| Layout.TruncateNameIdempotent | modules/image_generator.py:186-187 | shortening a shown name again changes nothing |
| Layout.TruncateNameCollides | modules/image_generator.py:186-187 | two long names with the same first 17 characters are shown alike |
| Layout.DrawCardInsideFrame | modules/image_generator.py:61-90 | the art area (194×214) lies inside the border and above the name line, the name is centred on the card, the rarity disk lies inside the card, the shown name has at most 20 characters, and the border has the rarity's colour |
| Layout.DrawCardDefaultLabel | modules/image_generator.py:84-87 | a card without a name is labelled "Unknown" |
| Layout.CardImage | modules/image_generator.py:31-36 | an empty card list is an error, and otherwise one drawing per card |
| Layout.CardImageLayout | modules/image_generator.py:35-49 | the strip for n cards is (220n + 20) × 320; every card lies on it, any two are at least a spacing apart, and the last card ends one spacing before the right edge |
| Layout.SpawnStrip | main.py:51-59 | the strip image of a non-empty spawn draws spawned card i in slot i with its own shortened name and its rarity's border colour |
| Layout.GridRowsIsCeiling | modules/image_generator.py:216-217 | the row count is the ceiling of n/4: enough rows for every card and no empty row |
| Layout.CollectionImageEmpty | modules/image_generator.py:211-213 | an empty collection is the fixed 400×300 image with no cards |
| Layout.GridCell | modules/image_generator.py:243-247 | card i sits in column i mod 4, which is under 4, and in row i div 4, which is one of the grid's rows |
| Layout.CollectionImageLayout | modules/image_generator.py:216-247 | the grid image is 900 wide and 300 per row plus 70 high; every card lies on it below the title band, and any two are at least a spacing apart |
| Layout.GridApart | modules/image_generator.py:243-247 | two different grid cells are at least a spacing apart |

## Left out

- The race between simultaneous claims. The source reads, checks and writes on separate statements without a transaction (database/db_manager.py:143-169), and each operation here is one atomic step.
- SQLite itself: connections, commits, the `row_factory` dicts and column defaults. The tables are fields of `Store.CardStore`.
- The schema creation and migrations of `initialize_database` (database/db_manager.py:20-113); the store starts from empty tables. The placeholder `migrate_to_mysql` does nothing and is not modelled.
- The `id` column of `user_cards` and the unused foreign-key constraints. SQLite does not enforce foreign keys unless asked, so spawn rows may carry card ids absent from `cards`, as in the model.
- Store.CardStore.ClaimCard: reads one `now` for the claim. The source calls `datetime.now()` separately for the spawn row and the ownership row (database/db_manager.py:162, 167), which may differ by microseconds.
- Store.CardStore.CreateSpawnSession: gives every row of a session one `now`, where the source reads the clock per row. It also returns new annotated values, where the source adds `spawn_id` to the caller's dicts in place.
- Store.UserCollectionNewestFirst: orders rows with equal claim times newest-inserted first. SQL leaves that tie order unspecified, so the contract promises only newest-first by time.
- Integer widths: SQLite's 64-bit row ids and Discord's user ids are unbounded integers here.
- The exception wrappers `CardManager.claim_card`, `is_card_claimed` and `get_user_cards` (modules/card_manager.py:94-124). They only log or map exceptions to defaults. One detail: `claim_card` logs every outcome as a success, since all three result strings are truthy.
- The logging and the re-raise in `spawn_cards`; utils/logger.py; modules/__init__.py; the placeholder `get_leaderboard`.
- main.py: the Discord commands, buttons and permission checks.
- CardManager.DetermineRarity: promises only membership. The weights 50/30/15/4/1 of `random.choices` and the uniformity of `random.sample` are probabilistic.
- Text.Lower, Text.Capitalize, Text.Title: map only the ASCII letters. Python's Unicode case tables are not modelled, so a non-ASCII letter in a file name or rarity is left as it is.
- The file system: `os.path.exists` and `os.listdir` are inputs. Also `os.path.exists(image_path)` decides whether the art is drawn at all. `Layout.DrawCard` places the art area either way.
- All Cairo, PIL and numpy drawing, and the floating-point colour values:
  - rounded rectangles, image loading, resizing and the BGRA swizzle;
  - text extents and centring;
  - the collection title and the empty-collection messages;
  - PNG temp files and `get_image_info`.
- The unused pool-exhaustion design. Spawns are never filtered by `get_all_claimed_cards`.

## Findings

| source | as written | input that shows it | evidently intended | confidence | as-written member | corrected member |
|---|---|---|---|---|---|---|
| modules/card_manager.py:137-140 | the rarity lookup `rarity in stats` also matches the key `total`, so a card whose rarity is the string `total` increments the total | one card `{'rarity': 'total'}` gives total 2 | total is always the number of cards, and only the five rarities are counted | not executed; low, since rarities normally come from the fixed five | CardManager.GetCardStats, CardManager.WrittenStatsTotalCollision | CardManager.IntendedStats, CardManager.IntendedStatsAddUp |
