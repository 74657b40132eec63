/**
 * `cardImageUrl`: the path of the SVG picture the client shows for a
 * card, built from the card record's `type`, `color` and `value`.
 */
module CardImages {
  import opened Cards
  import opened Text

  /** A card as the client receives it: its `type` string, and its `color`
      and `value` where the record has them (`null` or missing is
      `None`). */
  datatype CardRecord = CardRecord(kind: string, color: Option<string>, value: Option<int>)

  /** `toUpperCase` on one character, for the ASCII letters the colour
      names use. */
  function Upper(c: char): (u: char)
    ensures 'a' <= c <= 'z' ==> 'A' <= u <= 'Z' && u as int == c as int - 32
    ensures !('a' <= c <= 'z') ==> u == c
  {
    if 'a' <= c <= 'z' then (c as int - 32) as char else c
  }

  /** `capitalize`: the empty string stays empty; otherwise the first
      character is upper-cased and the rest is kept as it is. */
  function Capitalize(s: string): (r: string)
    ensures |r| == |s|
    ensures s != [] ==> r[0] == Upper(s[0]) && r[1..] == s[1..]
  {
    if s == [] then [] else [Upper(s[0])] + s[1..]
  }

  /** Capitalizing twice is capitalizing once. */
  lemma CapitalizeTwice(s: string)
    ensures Capitalize(Capitalize(s)) == Capitalize(s)
  {
    if s != [] {
      assert Capitalize(Capitalize(s))[1..] == Capitalize(s)[1..];
    }
  }

  /** The folder every picture lives in. */
  const Folder: string := "/images/uno-cards-svg/"

  /** `/images/${folder}/<name>.svg` */
  function ImagePath(name: string): (url: string)
    ensures |url| == |Folder| + |name| + 4
  {
    Folder + name + ".svg"
  }

  /** The picture name inside a path. */
  function ImageName(url: string): string
    requires |url| >= |Folder| + 4
  {
    url[|Folder|..|url| - 4]
  }

  /** The picture name can be read back from the path. */
  lemma ImageNameRoundTrip(name: string)
    ensures ImageName(ImagePath(name)) == name
  {
    var url := ImagePath(name);
    assert url == Folder + name + ".svg";
    assert url[|Folder|..|url| - 4] == name;
  }

  /** `cardImageUrl(card)`. */
  function CardImageUrl(card: CardRecord): string {
    if card.kind == "number" && card.color.Some? && card.value.Some? then
      ImagePath(Capitalize(card.color.value) + "- " + IntText(card.value.value))
    else if card.kind == "skip" then ImagePath("Skip-1")
    else if card.kind == "wild" then ImagePath("Wild-1")
    else ""
  }

  /** A card has a picture unless its type is unknown or it is a number
      card that lacks its colour or its value. */
  lemma NoImage(card: CardRecord)
    ensures CardImageUrl(card) == [] <==>
      card.kind != "skip" && card.kind != "wild" &&
      (card.kind == "number" ==> card.color.None? || card.value.None?)
  {
  }

  // ---------------------------------------------------------------------
  // The server's cards
  // ---------------------------------------------------------------------

  /** The colour strings of the deck. */
  function ColorName(c: Color): string {
    match c
    case Red => "red"
    case Yellow => "yellow"
    case Green => "green"
    case Blue => "blue"
  }

  /** The record the server sends for a card: `{type: 'number', color,
      value}`, `{type: 'wild'}` or `{type: 'skip'}`. */
  function Record(card: Card): (r: CardRecord)
    ensures r.kind == "number" <==> card.face.Number?
    ensures r.value == ValueOf(card)
  {
    match card.face
    case Number(color, value) => CardRecord("number", Some(ColorName(color)), Some(value as int))
    case Wild(_) => CardRecord("wild", None, None)
    case Skip => CardRecord("skip", None, None)
  }

  /** The first letter of a colour's picture names. */
  function Initial(c: Color): char {
    match c
    case Red => 'R'
    case Yellow => 'Y'
    case Green => 'G'
    case Blue => 'B'
  }

  /** A capitalized colour name starts with the colour's initial and holds
      no digit. */
  lemma TitleOf(c: Color)
    ensures |Capitalize(ColorName(c))| > 0 && Capitalize(ColorName(c))[0] == Initial(c)
    ensures forall k :: 0 <= k < |Capitalize(ColorName(c))| ==> !IsDigit(Capitalize(ColorName(c))[k])
  {
  }

  /** What a picture name shows of a card: a number card's colour initial
      and its value as the name's number, or the plain wild and skip
      pictures. */
  predicate ShowsFace(name: string, card: Card) {
    match card.face
    case Number(c, v) => name != [] && name[0] == Initial(c) && FirstNumber(name) == Some(v as int)
    case Wild(_) => name == "Wild-1"
    case Skip => name == "Skip-1"
  }

  /** Each card's picture name shows its face. */
  lemma ImageOfCard(card: Card)
    ensures |CardImageUrl(Record(card))| >= |Folder| + 4
    ensures ShowsFace(ImageName(CardImageUrl(Record(card))), card)
  {
    match card.face
    case Number(c, v) =>
      var title := Capitalize(ColorName(c));
      var name := title + "- " + IntText(v as int);
      TitleOf(c);
      var pre := title + "- ";
      assert forall k :: 0 <= k < |pre| ==> !IsDigit(pre[k]) by {
        forall k | 0 <= k < |pre| ensures !IsDigit(pre[k]) {
          if k < |title| {
            assert pre[k] == title[k];
          }
        }
      }
      FirstNumberOf(pre, v as int, []);
      assert pre + Decimal(v as int) + [] == name;
      ImageNameRoundTrip(name);
    case Wild(_) =>
      ImageNameRoundTrip("Wild-1");
    case Skip =>
      ImageNameRoundTrip("Skip-1");
  }

  /** A picture name shows at most one face. */
  lemma ShowsOneFace(name: string, a: Card, b: Card)
    requires ShowsFace(name, a) && ShowsFace(name, b)
    ensures AsRequest(a) == AsRequest(b)
  {
    if a.face.Number? && b.face.Number? {
      assert Initial(a.face.color) == Initial(b.face.color);
    }
  }

  /** Cards that show the same face are sent as the same record. */
  lemma SameFaceSameRecord(a: Card, b: Card)
    requires AsRequest(a) == AsRequest(b)
    ensures Record(a) == Record(b)
  {
  }

  /** Two cards get the same picture exactly when they show the same face:
      same type, and for number cards the same colour and value (a wild's
      assigned value does not change its picture). */
  lemma SamePictureSameFace(a: Card, b: Card)
    ensures CardImageUrl(Record(a)) == CardImageUrl(Record(b)) <==> AsRequest(a) == AsRequest(b)
  {
    if CardImageUrl(Record(a)) == CardImageUrl(Record(b)) {
      ImageOfCard(a);
      ImageOfCard(b);
      ShowsOneFace(ImageName(CardImageUrl(Record(a))), a, b);
    }
    if AsRequest(a) == AsRequest(b) {
      SameFaceSameRecord(a, b);
    }
  }

  /** Every card of the deck has a picture. */
  lemma EveryCardHasImage(card: Card)
    ensures CardImageUrl(Record(card)) != []
  {
    NoImage(Record(card));
  }
}
