/**
 * The card manager (modules/card_manager.py): which files of the art folder
 * are card images, how a file name becomes a card name, how a spawn is drawn
 * and handed to the store, and the display helpers.
 *
 * The folder is given as a flag saying whether it exists and the list of
 * names `os.listdir` returns. Random choices (`random.sample`,
 * `random.choices`) are nondeterministic: the model proves what holds for
 * every possible draw.
 */
module CardManager {
  import opened Wrappers
  import opened Text
  import opened Cards
  import Store

  const ArtFolder: string := "art"

  /** The extensions the card code accepts, compared against the lower-cased name. */
  const ImageExtensions: seq<string> := [".png", ".jpg", ".jpeg", ".gif", ".webp", ".bmp"]

  // ---------------------------------------------------------------------------
  // Which files are images

  /** `f.lower().endswith(('.png', '.jpg', '.jpeg', '.gif', '.webp', '.bmp'))`. */
  predicate IsImageFile(f: string) {
    exists ext :: ext in ImageExtensions && EndsWith(Lower(f), ext)
  }

  /** The test does not depend on the case of the name. */
  lemma ImageFileIgnoresCase(f: string)
    ensures IsImageFile(Lower(f)) == IsImageFile(f)
  {
    LowerIdempotent(f);
  }

  /** The image names of a listing, in listing order. */
  function Images(listing: seq<string>): (r: seq<string>)
    ensures |r| <= |listing|
  {
    if listing == [] then []
    else Images(listing[..|listing| - 1]) + (if IsImageFile(listing[|listing| - 1]) then [listing[|listing| - 1]] else [])
  }

  /** The other names of a listing, in listing order. */
  function NonImages(listing: seq<string>): (r: seq<string>)
    ensures |r| <= |listing|
  {
    if listing == [] then []
    else NonImages(listing[..|listing| - 1]) + (if IsImageFile(listing[|listing| - 1]) then [] else [listing[|listing| - 1]])
  }

  /** Images and non-images split the listing: every name lands in exactly one, as often as it occurs. */
  lemma ImagesPartition(listing: seq<string>)
    ensures |Images(listing)| + |NonImages(listing)| == |listing|
    ensures multiset(Images(listing)) + multiset(NonImages(listing)) == multiset(listing)
    ensures forall f :: f in Images(listing) <==> f in listing && IsImageFile(f)
    ensures forall f :: f in NonImages(listing) <==> f in listing && !IsImageFile(f)
  {
    ImagesMultiset(listing);
    ImagesFiltered(listing);
    var a, b := Images(listing), NonImages(listing);
    assert |multiset(a)| + |multiset(b)| == |multiset(listing)|;
    forall f ensures (f in a <==> f in listing && IsImageFile(f)) && (f in b <==> f in listing && !IsImageFile(f)) {
      assert f in a <==> f in multiset(a);
      assert f in b <==> f in multiset(b);
      assert f in listing <==> f in multiset(listing);
    }
  }

  lemma {:induction false} ImagesMultiset(listing: seq<string>)
    ensures multiset(Images(listing)) + multiset(NonImages(listing)) == multiset(listing)
  {
    if listing != [] {
      var n := |listing| - 1;
      ImagesMultiset(listing[..n]);
      assert listing == listing[..n] + [listing[n]];
    }
  }

  lemma {:induction false} ImagesFiltered(listing: seq<string>)
    ensures forall f :: f in Images(listing) ==> IsImageFile(f)
    ensures forall f :: f in NonImages(listing) ==> !IsImageFile(f)
  {
    if listing != [] {
      ImagesFiltered(listing[..|listing| - 1]);
    }
  }

  predicate NoDuplicates(names: seq<string>) {
    forall i, j :: 0 <= i < j < |names| ==> names[i] != names[j]
  }

  lemma {:induction false} ImagesNoDuplicates(listing: seq<string>)
    requires NoDuplicates(listing)
    ensures NoDuplicates(Images(listing))
  {
    if listing != [] {
      var n := |listing| - 1;
      assert NoDuplicates(listing[..n]);
      ImagesNoDuplicates(listing[..n]);
      ImagesPartition(listing[..n]);
      if IsImageFile(listing[n]) {
        assert listing[n] !in listing[..n];
      }
    }
  }

  // ---------------------------------------------------------------------------
  // validate_art_folder

  datatype FolderInfo = FolderInfo(folderExists: bool, fileCount: int, validFiles: seq<string>, invalidFiles: seq<string>)

  /** `validate_art_folder`: sorts the listing into image and other names. */
  method ValidateArtFolder(folderExists: bool, listing: seq<string>) returns (info: FolderInfo)
    ensures info.folderExists == folderExists
    ensures info.fileCount == |info.validFiles|
    ensures !folderExists ==> info.validFiles == [] && info.invalidFiles == []
    ensures folderExists ==> info.validFiles == Images(listing) && info.invalidFiles == NonImages(listing)
    ensures folderExists ==> multiset(info.validFiles) + multiset(info.invalidFiles) == multiset(listing)
  {
    info := FolderInfo(folderExists, 0, [], []);
    if folderExists {
      var valid, invalid := [], [];
      for i := 0 to |listing|
        invariant valid == Images(listing[..i])
        invariant invalid == NonImages(listing[..i])
      {
        assert listing[..i + 1][..i] == listing[..i];
        if IsImageFile(listing[i]) {
          valid := valid + [listing[i]];
        } else {
          invalid := invalid + [listing[i]];
        }
      }
      assert listing[..|listing|] == listing;
      ImagesPartition(listing);
      info := FolderInfo(true, |valid|, valid, invalid);
    }
  }

  // ---------------------------------------------------------------------------
  // _extract_card_name

  function CapitalizeAll(words: seq<string>): (r: seq<string>)
    ensures |r| == |words|
  {
    seq(|words|, i requires 0 <= i < |words| => Capitalize(words[i]))
  }

  /** The name with its extension removed and `_`, `-` turned into spaces. */
  function SpacedStem(filename: string): string {
    ReplaceChar(ReplaceChar(SplitExt(filename).0, '_', ' '), '-', ' ')
  }

  /**
   * `_extract_card_name`: drop the extension, turn `_` and `-` into spaces,
   * capitalise each word and join the words with single spaces.
   */
  function ExtractCardName(filename: string): (name: string)
    ensures '_' !in name && '-' !in name
    ensures WellSpaced(name)
    ensures forall c :: c in name && IsSpace(c) ==> c == ' '
    ensures Split(name) == CapitalizeAll(Split(SpacedStem(filename)))
    ensures forall w :: w in Split(name) ==> IsCapitalized(w)
  {
    var stem := SpacedStem(filename);
    var words := Split(stem);
    var caps := CapitalizeAll(words);
    CapitalizedWords(stem, words, caps);
    JoinWellSpaced(caps);
    JoinAvoids(caps, '_');
    JoinAvoids(caps, '-');
    JoinOnlySpaces(caps);
    SplitJoin(caps);
    Join(caps)
  }

  lemma CapitalizedWords(stem: string, words: seq<string>, caps: seq<string>)
    requires '_' !in stem && '-' !in stem
    requires forall i :: 0 <= i < |words| ==> IsWord(words[i])
    requires forall i, c :: 0 <= i < |words| && c in words[i] ==> c in stem
    requires caps == CapitalizeAll(words)
    ensures forall i :: 0 <= i < |caps| ==> IsWord(caps[i]) && IsCapitalized(caps[i])
    ensures forall i :: 0 <= i < |caps| ==> '_' !in caps[i] && '-' !in caps[i]
  {
    forall i | 0 <= i < |caps|
      ensures IsWord(caps[i]) && IsCapitalized(caps[i]) && '_' !in caps[i] && '-' !in caps[i]
    {
      assert caps[i] == Capitalize(words[i]);
      CapitalizeIsCapitalized(words[i]);
      forall c | c in caps[i] ensures !IsSpace(c) && c != '_' && c != '-' {
        if !IsCased(c) {
          assert c in words[i];
        }
      }
    }
  }

  lemma JoinOnlySpaces(caps: seq<string>)
    requires forall i :: 0 <= i < |caps| ==> IsWord(caps[i])
    ensures forall c :: c in Join(caps) && IsSpace(c) ==> c == ' '
  {
    forall c | IsSpace(c) && c != ' ' ensures c !in Join(caps) {
      JoinAvoids(caps, c);
    }
  }

  /** The extension goes: `stem.ext` names the same card as `stem`. */
  lemma ExtractCardNameDropsExtension(stem: string, ext: string)
    requires |stem| > 0 && '.' !in stem && '/' !in stem
    requires '.' !in ext && '/' !in ext
    ensures ExtractCardName(stem + "." + ext) == ExtractCardName(stem)
  {
    assert stem[0] in stem;
    SplitExtOfFileName(stem, ext);
    SplitExtWithoutDot(stem);
  }

  /** A worked name: `red_fox-kit.png` becomes "Red Fox Kit". */
  lemma ExtractCardNameExample()
    ensures ExtractCardName("red_fox-kit.png") == "Red Fox Kit"
  {
    var stem := "red_fox-kit";
    assert stem + "." + "png" == "red_fox-kit.png";
    ExtractCardNameDropsExtension(stem, "png");
    ExampleStem();
    ExampleWords();
    ExampleCapitals();
    ExampleJoin();
  }

  lemma ExampleStem()
    ensures SpacedStem("red_fox-kit") == "red fox kit"
  {
    SpacedStemOfPlainName("red_fox-kit", "red fox kit");
  }

  /** Without a dot, the stem is the name with `_` and `-` read as spaces. */
  lemma SpacedStemOfPlainName(s: string, t: string)
    requires '.' !in s && |t| == |s|
    requires forall i :: 0 <= i < |s| ==> t[i] == (if s[i] == '_' || s[i] == '-' then ' ' else s[i])
    ensures SpacedStem(s) == t
  {
    SplitExtWithoutDot(s);
  }

  lemma LettersAreWord(w: string)
    requires |w| > 0 && forall i :: 0 <= i < |w| ==> IsLower(w[i])
    ensures IsWord(w)
  {
  }

  lemma ExampleWords()
    ensures Split("red fox kit") == ["red", "fox", "kit"]
  {
    var words := ["red", "fox", "kit"];
    LettersAreWord("red");
    LettersAreWord("fox");
    LettersAreWord("kit");
    SplitJoin(words);
    assert Join(words) == "red fox kit";
  }

  lemma ExampleCapitals()
    ensures CapitalizeAll(["red", "fox", "kit"]) == ["Red", "Fox", "Kit"]
  {
    assert Capitalize("red") == "Red";
    assert Capitalize("fox") == "Fox";
    assert Capitalize("kit") == "Kit";
  }

  lemma ExampleJoin()
    ensures Join(["Red", "Fox", "Kit"]) == "Red Fox Kit"
  {
  }

  // ---------------------------------------------------------------------------
  // Rarity

  /** `_determine_rarity`: one of the five rarities (the draw's weights are not modelled). */
  method DetermineRarity() returns (rarity: string)
    ensures IsRarity(rarity)
  {
    assert IsRarity(Rarities[0]);
    rarity :| IsRarity(rarity);
  }

  /** `get_rarity_color`: the embed colour of a rarity, grey for any other string. */
  function GetRarityColor(rarity: string): (colour: int)
    ensures rarity == "common" ==> colour == 0x808080
    ensures rarity == "uncommon" ==> colour == 0x00ff00
    ensures rarity == "rare" ==> colour == 0x0080ff
    ensures rarity == "epic" ==> colour == 0x8000ff
    ensures rarity == "legendary" ==> colour == 0xffd700
    ensures !IsRarity(rarity) ==> colour == 0x808080
    ensures 0 <= colour < 0x100_0000
  {
    var colours := map["common" := 0x808080, "uncommon" := 0x00ff00, "rare" := 0x0080ff,
                        "epic" := 0x8000ff, "legendary" := 0xffd700];
    if rarity in colours then colours[rarity] else 0x808080
  }

  // ---------------------------------------------------------------------------
  // _get_random_art_cards and spawn_cards

  datatype SpawnError =
    | FolderMissing    // FileNotFoundError: the art folder does not exist
    | NoImageFiles     // ValueError: no image files found in the art folder
    | NegativeSample   // ValueError from random.sample: a negative count

  /** `os.path.join(a, b)` on POSIX for two parts. */
  function PathJoin(a: string, b: string): (p: string)
    ensures |b| > 0 && b[0] == '/' ==> p == b
  {
    if |b| > 0 && b[0] == '/' then b
    else if a == [] || a[|a| - 1] == '/' then a + b
    else a + "/" + b
  }

  /** A listed name never holds `/`, so its image path is `art/<name>`. */
  lemma ArtPath(file: string)
    requires '/' !in file
    ensures PathJoin(ArtFolder, file) == "art/" + file
  {
    if |file| > 0 {
      assert file[0] in file;
    }
  }

  /** The number of cards a spawn draws: the request, cut down to the number of images. */
  function ClampedCount(count: int, images: nat): int {
    if images < count then images else count
  }

  /** The card `_get_random_art_cards` makes for slot `i`, image `file` and a drawn rarity. */
  function SlotCard(i: nat, file: string, rarity: string): ArtCard {
    ArtCard(i + 1, ExtractCardName(file), PathJoin(ArtFolder, file), rarity, file)
  }

  /** The card in slot `i` of a spawn for image `file`: id i+1, name and path from the file, one of the rarities. */
  predicate IsSlotCard(card: ArtCard, i: nat, file: string) {
    card == SlotCard(i, file, card.rarity) && IsRarity(card.rarity)
  }

  /** What every draw of `_get_random_art_cards` satisfies. */
  predicate IsDraw(cards: seq<ArtCard>, count: int, listing: seq<string>) {
    && |cards| == ClampedCount(count, |Images(listing)|)
    && (forall i :: 0 <= i < |cards| ==> IsSlotCard(cards[i], i, cards[i].filename) && cards[i].filename in Images(listing))
    && (NoDuplicates(listing) ==> forall i, j :: 0 <= i < j < |cards| ==> cards[i].filename != cards[j].filename)
  }

  /** The names `os.listdir` returns hold no `/`, so every drawn card's image path is `art/<filename>`. */
  lemma DrawImagePaths(cards: seq<ArtCard>, count: int, listing: seq<string>)
    requires IsDraw(cards, count, listing)
    requires forall f :: f in listing ==> '/' !in f
    ensures forall i :: 0 <= i < |cards| ==> cards[i].imagePath == "art/" + cards[i].filename
  {
    ImagesPartition(listing);
    forall i | 0 <= i < |cards| ensures cards[i].imagePath == "art/" + cards[i].filename {
      ArtPath(cards[i].filename);
    }
  }

  /** `random.sample` of `n` out of `size`: `n` distinct positions. */
  predicate IsSample(picks: seq<nat>, n: nat, size: nat) {
    && |picks| == n
    && (forall k :: 0 <= k < n ==> picks[k] < size)
    && (forall k, l :: 0 <= k < l < n ==> picks[k] != picks[l])
  }

  /** `_get_random_art_cards`: draw up to `count` distinct images and make a card of each. */
  method GetRandomArtCards(count: int, folderExists: bool, listing: seq<string>) returns (r: Result<seq<ArtCard>, SpawnError>)
    ensures !folderExists ==> r == Failure(FolderMissing)
    ensures folderExists && |Images(listing)| == 0 ==> r == Failure(NoImageFiles)
    ensures folderExists && |Images(listing)| > 0 && count < 0 ==> r == Failure(NegativeSample)
    ensures folderExists && |Images(listing)| > 0 && count >= 0 ==> r.Success? && IsDraw(r.value, count, listing)
  {
    if !folderExists {
      return Failure(FolderMissing);
    }
    var images := Images(listing);
    var n := count;
    if |images| < n {
      n := |images|;
    }
    if |images| == 0 {
      return Failure(NoImageFiles);
    }
    if n < 0 {
      return Failure(NegativeSample);
    }
    assert IsSample(seq(n, k => k), n, |images|);
    var picks: seq<nat> :| IsSample(picks, n, |images|);
    var cards := MakeCards(images, picks, n);
    SampleIsDraw(cards, picks, count, listing);
    return Success(cards);
  }

  /** The loop of `_get_random_art_cards`: card `i` is made from the `i`-th sampled image. */
  method MakeCards(images: seq<string>, picks: seq<nat>, n: nat) returns (cards: seq<ArtCard>)
    requires IsSample(picks, n, |images|)
    ensures |cards| == n
    ensures forall k :: 0 <= k < n ==> IsSlotCard(cards[k], k, images[picks[k]])
  {
    cards := [];
    for i := 0 to n
      invariant |cards| == i
      invariant forall k :: 0 <= k < i ==> IsSlotCard(cards[k], k, images[picks[k]])
    {
      var rarity := DetermineRarity();
      var card := SlotCard(i, images[picks[i]], rarity);
      assert IsSlotCard(card, i, images[picks[i]]);
      cards := cards + [card];
    }
  }

  /** Cards made from a sample of the listing's images are a draw. */
  lemma SampleIsDraw(cards: seq<ArtCard>, picks: seq<nat>, count: int, listing: seq<string>)
    requires count >= 0
    requires IsSample(picks, ClampedCount(count, |Images(listing)|), |Images(listing)|)
    requires |cards| == |picks|
    requires forall k :: 0 <= k < |cards| ==> IsSlotCard(cards[k], k, Images(listing)[picks[k]])
    ensures IsDraw(cards, count, listing)
  {
    var images := Images(listing);
    if NoDuplicates(listing) {
      ImagesNoDuplicates(listing);
      forall i, j | 0 <= i < j < |cards| ensures cards[i].filename != cards[j].filename {
        assert picks[i] != picks[j];
      }
    }
  }

  /** `spawn_cards`: draw the cards and open a spawn session for them in the store. */
  method SpawnCards(db: Store.CardStore, count: int, folderExists: bool, listing: seq<string>, now: int)
    returns (r: Result<seq<SpawnedArtCard>, SpawnError>)
    requires db.Valid() && now >= db.clock
    modifies db
    ensures db.Valid()
    ensures r.Failure? <==> !folderExists || |Images(listing)| == 0 || count < 0
    ensures r.Failure? ==> db.State() == old(db.State())
    ensures r.Success? ==>
              exists drawn :: IsDraw(drawn, count, listing)
                && r.value == Store.AnnotateSession(drawn, old(db.nextSpawnId))
                && db.State() == Store.AfterSpawn(old(db.State()), drawn, now)
  {
    var drawn := GetRandomArtCards(count, folderExists, listing);
    if drawn.Failure? {
      return Failure(drawn.error);
    }
    var spawned := db.CreateSpawnSession(drawn.value, now);
    return Success(spawned);
  }

  // ---------------------------------------------------------------------------
  // get_card_stats

  datatype Stats = Stats(total: int, common: int, uncommon: int, rare: int, epic: int, legendary: int)

  /** A card's rarity as `card.get('rarity', 'common')` reads it. */
  function RarityOf(card: CardFields): string {
    card.rarity.GetOr("common")
  }

  /** How many cards read as rarity `r`. */
  function CountRarity(cards: seq<CardFields>, r: string): (n: nat)
    ensures n <= |cards|
  {
    if cards == [] then 0
    else CountRarity(cards[..|cards| - 1], r) + (if RarityOf(cards[|cards| - 1]) == r then 1 else 0)
  }

  /**
   * The counters `get_card_stats` returns. The rarity lookup `rarity in stats`
   * also matches the key 'total', so a card whose rarity is the string 'total'
   * adds one to the total.
   */
  function WrittenStats(cards: seq<CardFields>): Stats {
    Stats(|cards| + CountRarity(cards, "total"),
          CountRarity(cards, "common"), CountRarity(cards, "uncommon"), CountRarity(cards, "rare"),
          CountRarity(cards, "epic"), CountRarity(cards, "legendary"))
  }

  /** `get_card_stats`: start from the total and zero counters, count each card's rarity. */
  method GetCardStats(cards: seq<CardFields>) returns (stats: Stats)
    ensures stats == WrittenStats(cards)
  {
    stats := Stats(|cards|, 0, 0, 0, 0, 0);
    for i := 0 to |cards|
      invariant stats == WrittenStats(cards[..i]).(total := |cards| + CountRarity(cards[..i], "total"))
    {
      assert cards[..i + 1][..i] == cards[..i];
      var rarity := RarityOf(cards[i]);
      if rarity == "total" {
        stats := stats.(total := stats.total + 1);
      } else if rarity == "common" {
        stats := stats.(common := stats.common + 1);
      } else if rarity == "uncommon" {
        stats := stats.(uncommon := stats.uncommon + 1);
      } else if rarity == "rare" {
        stats := stats.(rare := stats.rare + 1);
      } else if rarity == "epic" {
        stats := stats.(epic := stats.epic + 1);
      } else if rarity == "legendary" {
        stats := stats.(legendary := stats.legendary + 1);
      }
    }
    assert cards[..|cards|] == cards;
  }

  /** One card of rarity 'total' makes the written total 2 for a list of one card. */
  lemma WrittenStatsTotalCollision()
    ensures var cards := [CardFields(None, Some("total"), None)];
      WrittenStats(cards).total == 2 && |cards| == 1
  {
    var cards := [CardFields(None, Some("total"), None)];
    assert cards[..0] == [];
  }

  /** The statistics as intended: the total is the number of cards. */
  function IntendedStats(cards: seq<CardFields>): (stats: Stats)
    ensures stats.total == |cards|
  {
    WrittenStats(cards).(total := |cards|)
  }

  /** Without a card of rarity 'total' the code computes the intended statistics. */
  lemma WrittenStatsIntended(cards: seq<CardFields>)
    requires forall i :: 0 <= i < |cards| ==> RarityOf(cards[i]) != "total"
    ensures WrittenStats(cards) == IntendedStats(cards)
  {
    CountRarityNone(cards, "total");
  }

  lemma {:induction false} CountRarityNone(cards: seq<CardFields>, r: string)
    requires forall i :: 0 <= i < |cards| ==> RarityOf(cards[i]) != r
    ensures CountRarity(cards, r) == 0
  {
    if cards != [] {
      CountRarityNone(cards[..|cards| - 1], r);
    }
  }

  /**
   * The five counters never exceed the total, and add up to it exactly when
   * every card reads as one of the five rarities.
   */
  lemma {:induction false} IntendedStatsAddUp(cards: seq<CardFields>)
    ensures var s := IntendedStats(cards);
      s.common + s.uncommon + s.rare + s.epic + s.legendary <= s.total
    ensures var s := IntendedStats(cards);
      (s.common + s.uncommon + s.rare + s.epic + s.legendary == s.total)
      <==> (forall i :: 0 <= i < |cards| ==> IsRarity(RarityOf(cards[i])))
  {
    if cards != [] {
      var n := |cards| - 1;
      IntendedStatsAddUp(cards[..n]);
      assert forall i :: 0 <= i < n ==> cards[..n][i] == cards[i];
      if !IsRarity(RarityOf(cards[n])) {
        assert !(forall i :: 0 <= i < |cards| ==> IsRarity(RarityOf(cards[i])));
      }
    }
  }

  // ---------------------------------------------------------------------------
  // format_card_info

  /** The emoji for a title-cased rarity, white for any other. */
  function RarityEmoji(titled: string): char {
    if titled == "Common" then '⚪'
    else if titled == "Uncommon" then '🟢'
    else if titled == "Rare" then '🔵'
    else if titled == "Epic" then '🟣'
    else if titled == "Legendary" then '🟡'
    else '⚪'
  }

  /** The display line "<emoji> **<name>** (<rarity>)". */
  function InfoLine(emoji: char, name: string, rarity: string): string {
    [emoji] + " **" + name + "** (" + rarity + ")"
  }

  /** `format_card_info`: the line for the title-cased rarity and its emoji. */
  function FormatCardInfo(card: CardFields): string {
    var rarity := Title(card.rarity.GetOr("common"));
    InfoLine(RarityEmoji(rarity), card.name.GetOr("Unknown Card"), rarity)
  }

  /** The rarities as `format_card_info` shows them, and their emojis, in the order of `Rarities`. */
  const RarityTitles: seq<string> := ["Common", "Uncommon", "Rare", "Epic", "Legendary"]
  const RarityEmojis: seq<char> := ['⚪', '🟢', '🔵', '🟣', '🟡']

  /**
   * A rarity is recognised whatever its letter case: the line shows the
   * rarity's own emoji and its capitalised name. A missing rarity reads as
   * `common` and is shown as Common.
   */
  lemma FormatCardInfoKnown(card: CardFields, k: nat)
    requires k < |Rarities| && Lower(card.rarity.GetOr("common")) == Rarities[k]
    ensures FormatCardInfo(card) == InfoLine(RarityEmojis[k], card.name.GetOr("Unknown Card"), RarityTitles[k])
  {
    RarityTitleTable(k);
    FormatCardInfoTitled(card, Rarities[k], RarityTitles[k]);
  }

  lemma RarityTitleTable(k: nat)
    requires k < |Rarities|
    ensures |Rarities[k]| > 0 && forall i :: 0 <= i < |Rarities[k]| ==> IsLower(Rarities[k][i])
    ensures RarityTitles[k] == [UpperChar(Rarities[k][0])] + Rarities[k][1..]
    ensures RarityEmoji(RarityTitles[k]) == RarityEmojis[k]
  {
  }

  /** A rarity whose lower-cased form is the word `lower` is shown as `titled`, its capitalised form. */
  lemma FormatCardInfoTitled(card: CardFields, lower: string, titled: string)
    requires Lower(card.rarity.GetOr("common")) == lower
    requires |lower| > 0 && forall i :: 0 <= i < |lower| ==> IsLower(lower[i])
    requires titled == [UpperChar(lower[0])] + lower[1..]
    ensures FormatCardInfo(card) == InfoLine(RarityEmoji(titled), card.name.GetOr("Unknown Card"), titled)
  {
    TitleIgnoresCase(card.rarity.GetOr("common"));
    TitleOfLowerWord(lower);
  }

  /** Any rarity that title-cases to none of the five table keys gets the white emoji. */
  lemma FormatCardInfoUnknown(card: CardFields)
    requires Title(card.rarity.GetOr("common")) !in ["Common", "Uncommon", "Rare", "Epic", "Legendary"]
    ensures FormatCardInfo(card)[0] == '⚪'
    ensures EndsWith(FormatCardInfo(card), " (" + Title(card.rarity.GetOr("common")) + ")")
  {
    var rarity := Title(card.rarity.GetOr("common"));
    var text := FormatCardInfo(card);
    var tail := " (" + rarity + ")";
    assert text == [RarityEmoji(rarity)] + " **" + card.name.GetOr("Unknown Card") + "**" + tail;
    assert text[|text| - |tail|..] == tail;
  }

  /**
   * A collection entry as the card list of the bot shows it: the joined
   * card name with the emoji and title of its rarity.
   */
  lemma FormatOwnedCard(c: OwnedCard, k: nat)
    requires k < |Rarities| && Lower(c.rarity) == Rarities[k]
    ensures FormatCardInfo(OwnedFields(c)) == InfoLine(RarityEmojis[k], c.name, RarityTitles[k])
  {
    FormatCardInfoKnown(OwnedFields(c), k);
  }
}
