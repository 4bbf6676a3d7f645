/**
 * The integer layout of the image generator (modules/image_generator.py):
 * the spawn strip, the collection grid, where each part of a card goes,
 * how a name is shortened and which colour a rarity gets. Pixels are drawn
 * by Cairo; the model only places them.
 */
module Layout {
  import opened Wrappers
  import opened Cards
  import CardManager

  const CardWidth: int := 200
  const CardHeight: int := 280
  const Spacing: int := 20
  const BorderWidth: int := 3
  const CardsPerRow: int := 4
  /** The band above the collection grid that holds the title. */
  const TitleHeight: int := 50
  /** The band at the bottom of a card, below the art, that holds the name. */
  const NameBand: int := 60
  const IndicatorRadius: int := 8
  const MaxLabel: int := 20

  datatype Point = Point(x: int, y: int)
  datatype Rect = Rect(x: int, y: int, width: int, height: int)
  datatype Canvas = Canvas(width: int, height: int)
  datatype Rgb = Rgb(r: int, g: int, b: int)

  predicate Within(inner: Rect, outer: Rect) {
    && outer.x <= inner.x && inner.x + inner.width <= outer.x + outer.width
    && outer.y <= inner.y && inner.y + inner.height <= outer.y + outer.height
  }

  predicate OnCanvas(r: Rect, c: Canvas) {
    Within(r, Rect(0, 0, c.width, c.height))
  }

  /** The two rectangles are at least `gap` apart along one axis. */
  predicate Apart(a: Rect, b: Rect, gap: int) {
    || a.x + a.width + gap <= b.x || b.x + b.width + gap <= a.x
    || a.y + a.height + gap <= b.y || b.y + b.height + gap <= a.y
  }

  predicate DiskWithin(centre: Point, radius: int, r: Rect) {
    Within(Rect(centre.x - radius, centre.y - radius, 2 * radius, 2 * radius), r)
  }

  // ---------------------------------------------------------------------------
  // Colours and labels

  /** `rarity_colors.get(rarity, (128, 128, 128))`. */
  function RarityRgb(rarity: string): Rgb {
    var colours := map["common" := Rgb(128, 128, 128), "uncommon" := Rgb(0, 255, 0), "rare" := Rgb(0, 128, 255),
                       "epic" := Rgb(128, 0, 255), "legendary" := Rgb(255, 215, 0)];
    if rarity in colours then colours[rarity] else Rgb(128, 128, 128)
  }

  /**
   * The drawing colours are the embed colours split into bytes: both tables
   * agree, for every string, on the five rarities and on the grey default.
   */
  lemma RarityRgbMatchesEmbedColour(rarity: string)
    ensures var c := RarityRgb(rarity);
      && 0 <= c.r < 256 && 0 <= c.g < 256 && 0 <= c.b < 256
      && c.r * 0x1_0000 + c.g * 0x100 + c.b == CardManager.GetRarityColor(rarity)
  {
  }

  /** A card with no rarity is drawn as common; an unknown rarity is grey. */
  lemma RarityRgbDefaults(card: CardFields)
    ensures card.rarity.None? ==> RarityRgb(card.rarity.GetOr("common")) == Rgb(128, 128, 128)
    ensures !IsRarity(card.rarity.GetOr("common")) ==> RarityRgb(card.rarity.GetOr("common")) == Rgb(128, 128, 128)
  {
  }

  /** `_draw_card_text`'s shortening: more than 20 characters become the first 17 and "...". */
  function TruncateName(text: string): (shown: string)
    ensures |shown| <= MaxLabel
    ensures |text| <= MaxLabel ==> shown == text
    ensures |text| > MaxLabel ==> |shown| == MaxLabel && shown[..17] == text[..17] && shown[17..] == "..."
  {
    if |text| > MaxLabel then text[..17] + "..." else text
  }

  /** A shown label is shown as it is. */
  lemma TruncateNameIdempotent(text: string)
    ensures TruncateName(TruncateName(text)) == TruncateName(text)
  {
  }

  /** Two names that share their first 17 characters and are both too long look the same. */
  lemma TruncateNameCollides(a: string, b: string)
    requires |a| > MaxLabel && |b| > MaxLabel && a[..17] == b[..17]
    ensures TruncateName(a) == TruncateName(b)
  {
  }

  // ---------------------------------------------------------------------------
  // One card

  /** Where `_draw_card` puts each part of a card whose top-left corner is `(x, y)`. */
  datatype CardDrawing = CardDrawing(frame: Rect, art: Rect, caption: string, captionAt: Point, border: Rgb, indicatorAt: Point)

  function DrawCard(card: CardFields, x: int, y: int): CardDrawing {
    var border := RarityRgb(card.rarity.GetOr("common"));
    CardDrawing(
      Rect(x, y, CardWidth, CardHeight),
      Rect(x + BorderWidth, y + BorderWidth, CardWidth - BorderWidth * 2, CardHeight - NameBand - BorderWidth * 2),
      TruncateName(card.name.GetOr("Unknown")),
      Point(x + CardWidth / 2, y + CardHeight - 30),
      border,
      Point(x + CardWidth - 30, y + 15))
  }

  /**
   * Every part of a card stays on the card: the art inside the border and
   * above the name line, the name centred on the card, the rarity disk in
   * the top-right corner.
   */
  lemma DrawCardInsideFrame(card: CardFields, x: int, y: int)
    ensures var d := DrawCard(card, x, y);
      && d.frame == Rect(x, y, CardWidth, CardHeight)
      && Within(d.art, Rect(x + BorderWidth, y + BorderWidth, CardWidth - 2 * BorderWidth, CardHeight - 2 * BorderWidth))
      && d.art.width == 194 && d.art.height == 214
      && d.art.y + d.art.height < d.captionAt.y < y + CardHeight
      && d.captionAt.x - x == x + CardWidth - d.captionAt.x
      && DiskWithin(d.indicatorAt, IndicatorRadius, d.frame)
      && |d.caption| <= MaxLabel
      && d.border == RarityRgb(card.rarity.GetOr("common"))
  {
  }

  /** A card without a name is labelled "Unknown". */
  lemma DrawCardDefaultLabel(card: CardFields, x: int, y: int)
    requires card.name.None?
    ensures DrawCard(card, x, y).caption == "Unknown"
  {
  }

  // ---------------------------------------------------------------------------
  // The spawn strip: create_card_image

  /** The top-left corner of card `i` of a strip. */
  function StripOrigin(i: int): Point {
    Point(Spacing + i * (CardWidth + Spacing), Spacing)
  }

  /** The strip's canvas and cards: an error for no cards, otherwise one row with a margin all round. */
  function CardImage(cards: seq<CardFields>): (r: Result<(Canvas, seq<CardDrawing>), string>)
    ensures r.Failure? <==> |cards| == 0
    ensures r.Success? ==> |r.value.1| == |cards|
  {
    if |cards| == 0 then Failure("No cards provided for image generation")
    else
      var n := |cards|;
      var canvas := Canvas(CardWidth * n + Spacing * (n + 1), CardHeight + Spacing * 2);
      Success((canvas, seq(n, i requires 0 <= i < n => DrawCard(cards[i], StripOrigin(i).x, StripOrigin(i).y))))
  }

  /**
   * The strip for `n` cards is 220n+20 by 320; each card lies on the canvas,
   * any two cards are at least a spacing apart, and the last card ends one
   * spacing before the right edge.
   */
  lemma CardImageLayout(cards: seq<CardFields>)
    requires |cards| > 0
    ensures var (canvas, drawn) := CardImage(cards).value;
      && canvas == Canvas(220 * |cards| + 20, 320)
      && (forall i :: 0 <= i < |drawn| ==> OnCanvas(drawn[i].frame, canvas) && drawn[i].frame.y == Spacing)
      && (forall i, j :: 0 <= i < j < |drawn| ==> Apart(drawn[i].frame, drawn[j].frame, Spacing))
      && drawn[|drawn| - 1].frame.x + CardWidth + Spacing == canvas.width
  {
    var (canvas, drawn) := CardImage(cards).value;
    forall i, j | 0 <= i < j < |drawn| ensures Apart(drawn[i].frame, drawn[j].frame, Spacing) {
      assert drawn[i].frame.x + CardWidth + Spacing <= drawn[j].frame.x;
    }
  }

  /**
   * The strip of a non-empty spawn draws each spawned card in turn with its
   * own name, shortened, and the border colour of its rarity.
   */
  lemma SpawnStrip(spawn: seq<SpawnedArtCard>)
    requires |spawn| > 0
    ensures var r := CardImage(SpawnedFieldsOf(spawn));
      && r.Success? && |r.value.1| == |spawn|
      && forall i :: 0 <= i < |spawn| ==>
           r.value.1[i].caption == TruncateName(spawn[i].card.name)
           && r.value.1[i].border == RarityRgb(spawn[i].card.rarity)
           && r.value.1[i].frame.x == StripOrigin(i).x
  {
  }

  // ---------------------------------------------------------------------------
  // The collection grid: create_user_collection_image

  /** `(n + 3) // 4`: the rows a collection of `n` cards needs. */
  function GridRows(n: nat): nat {
    (n + CardsPerRow - 1) / CardsPerRow
  }

  /** The row count is the ceiling of n/4: enough rows for every card, and no empty row. */
  lemma GridRowsIsCeiling(n: nat)
    ensures CardsPerRow * GridRows(n) >= n
    ensures n > 0 ==> CardsPerRow * (GridRows(n) - 1) < n
    ensures GridRows(n) == 0 <==> n == 0
  {
  }

  /** The top-left corner of card `i` of the grid: column `i % 4`, row `i // 4`, below the title. */
  function GridOrigin(i: nat): Point {
    var row, col := i / CardsPerRow, i % CardsPerRow;
    Point(Spacing + col * (CardWidth + Spacing), TitleHeight + Spacing + row * (CardHeight + Spacing))
  }

  /** The collection's canvas and cards: the fixed 400 by 300 empty image for no cards, otherwise the grid. */
  function CollectionImage(cards: seq<CardFields>): (r: (Canvas, seq<CardDrawing>))
    ensures |r.1| == |cards|
  {
    if |cards| == 0 then (Canvas(400, 300), [])
    else
      var n := |cards|;
      var rows := GridRows(n);
      var canvas := Canvas(CardWidth * CardsPerRow + Spacing * (CardsPerRow + 1),
                           CardHeight * rows + Spacing * (rows + 1) + TitleHeight);
      (canvas, seq(n, i requires 0 <= i < n => DrawCard(cards[i], GridOrigin(i).x, GridOrigin(i).y)))
  }

  lemma CollectionImageEmpty(cards: seq<CardFields>)
    requires |cards| == 0
    ensures CollectionImage(cards) == (Canvas(400, 300), [])
  {
  }

  /** Card `i` sits in column `i % 4` of row `i // 4`, and that row is one of the grid's rows. */
  lemma GridCell(n: nat, i: nat)
    requires i < n
    ensures var o := GridOrigin(i);
      && o.x == Spacing + (i % CardsPerRow) * (CardWidth + Spacing) && i % CardsPerRow < CardsPerRow
      && o.y == TitleHeight + Spacing + (i / CardsPerRow) * (CardHeight + Spacing) && i / CardsPerRow < GridRows(n)
  {
  }

  /**
   * The grid is 900 pixels wide and 300 per row plus 70 high; each card lies
   * on the canvas below the title band, and any two cards are at least a
   * spacing apart.
   */
  lemma CollectionImageLayout(cards: seq<CardFields>)
    requires |cards| > 0
    ensures var (canvas, drawn) := CollectionImage(cards);
      && canvas == Canvas(900, 300 * GridRows(|cards|) + 70)
      && (forall i :: 0 <= i < |drawn| ==> OnCanvas(drawn[i].frame, canvas) && drawn[i].frame.y >= TitleHeight)
      && (forall i, j :: 0 <= i < j < |drawn| ==> Apart(drawn[i].frame, drawn[j].frame, Spacing))
  {
    var (canvas, drawn) := CollectionImage(cards);
    var n := |cards|;
    forall i | 0 <= i < n ensures OnCanvas(drawn[i].frame, canvas) && drawn[i].frame.y >= TitleHeight {
      GridCell(n, i);
      GridRowBound(n, i);
    }
    forall i, j | 0 <= i < j < n ensures Apart(drawn[i].frame, drawn[j].frame, Spacing) {
      GridApart(i, j);
    }
  }

  lemma GridRowBound(n: nat, i: nat)
    requires i < n
    ensures (i / CardsPerRow) * 300 + 350 <= 300 * GridRows(n) + 70
  {
    assert i / CardsPerRow + 1 <= GridRows(n);
  }

  /** Two different cells of the grid differ in row or column, each a spacing apart. */
  lemma GridApart(i: nat, j: nat)
    requires i != j
    ensures Apart(Rect(GridOrigin(i).x, GridOrigin(i).y, CardWidth, CardHeight),
                  Rect(GridOrigin(j).x, GridOrigin(j).y, CardWidth, CardHeight), Spacing)
  {
    var ri, ci := i / CardsPerRow, i % CardsPerRow;
    var rj, cj := j / CardsPerRow, j % CardsPerRow;
    assert i == ri * CardsPerRow + ci && j == rj * CardsPerRow + cj;
    if ri == rj {
      assert ci != cj;
    }
  }
}
