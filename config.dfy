/**
 * The Sokoban constructor's parameter validation: grid dimensions, box
 * count and the six tile appearances (glyphs), which must be pairwise
 * distinct so that a glyph identifies its tile kind.
 */
module Config {
  import opened Wrappers
  import opened Grid

  /** One reason per rejecting check of the constructor, in the order the checks run. */
  datatype ConfigError =
    | WidthMissing
    | HeightMissing
    | WidthTooSmall
    | HeightTooSmall
    | TooFewBoxes
    | TooManyBoxes
    | AppearanceNotUnique

  /** `options.boxes` after defaulting: a falsy count (0) becomes 1. */
  function DefaultBoxes(boxes: int): int {
    if boxes == 0 then 1 else boxes
  }

  /** The condition under which the constructor rejects with reason `e`, given the glyphs it was passed. */
  ghost predicate Violates(e: ConfigError, width: int, height: int, boxes: int, glyphs: seq<string>) {
    match e
    case WidthMissing => width == 0
    case HeightMissing => height == 0
    case WidthTooSmall => width < 5
    case HeightTooSmall => height < 5
    case TooFewBoxes => DefaultBoxes(boxes) < 1
    case TooManyBoxes => DefaultBoxes(boxes) > width * height
    case AppearanceNotUnique => !Distinct(glyphs)
  }

  /**
   * The numeric checks of the constructor, in source order. On success the
   * result is the box count the level is generated with.
   */
  function CheckOptions(width: int, height: int, boxes: int): (r: Result<int, ConfigError>)
    ensures r.Success? <==> 5 <= width && 5 <= height && 1 <= DefaultBoxes(boxes) <= width * height
    ensures r.Success? ==> r.value == DefaultBoxes(boxes)
    ensures r.Failure? ==> r.error != AppearanceNotUnique
    ensures r.Failure? ==> forall glyphs :: Violates(r.error, width, height, boxes, glyphs)
  {
    if width == 0 then Failure(WidthMissing)
    else if height == 0 then Failure(HeightMissing)
    else if width < 5 then Failure(WidthTooSmall)
    else if height < 5 then Failure(HeightTooSmall)
    else
      var n := DefaultBoxes(boxes);
      if n < 1 then Failure(TooFewBoxes)
      else if n > width * height then Failure(TooManyBoxes)
      else Success(n)
  }

  /** The appearance option: one glyph per tile kind. */
  datatype Appearance = Appearance(player: string, box: string, boxOnGoal: string, goal: string, wall: string, floor: string) {
    /** The glyphs in the order the constructor lists them. */
    function AsList(): seq<string> {
      [player, box, boxOnGoal, goal, wall, floor]
    }

    function GlyphOf(t: Tile): string {
      match t
      case Player => player
      case Box => box
      case BoxOnGoal => boxOnGoal
      case Goal => goal
      case Wall => wall
      case Floor => floor
    }
  }

  ghost predicate Distinct(s: seq<string>) {
    forall i, j :: 0 <= i < |s| && 0 <= j < |s| && i != j ==> s[i] != s[j]
  }

  /**
   * The constructor's uniqueness check: every ordered pair of distinct
   * positions is compared, and the first equal pair rejects.
   */
  method AppearancesUnique(appearances: seq<string>) returns (unique: bool)
    ensures unique <==> Distinct(appearances)
  {
    for i := 0 to |appearances|
      invariant forall i', j :: 0 <= i' < i && 0 <= j < |appearances| && i' != j ==> appearances[i'] != appearances[j]
    {
      for j := 0 to |appearances|
        invariant forall j' :: 0 <= j' < j && i != j' ==> appearances[i] != appearances[j']
      {
        if i != j && appearances[i] == appearances[j] {
          return false;
        }
      }
    }
    return true;
  }

  /**
   * All of the constructor's checks in source order: the numeric ones, then
   * the uniqueness of the glyphs. On success the result is the box count.
   */
  method ValidateOptions(width: int, height: int, boxes: int, appearance: Appearance) returns (r: Result<int, ConfigError>)
    ensures r.Success? <==> CheckOptions(width, height, boxes).Success? && Distinct(appearance.AsList())
    ensures r.Success? ==> r.value == DefaultBoxes(boxes)
    ensures r.Failure? ==> (r.error == AppearanceNotUnique <==> CheckOptions(width, height, boxes).Success?)
    ensures r.Failure? ==> Violates(r.error, width, height, boxes, appearance.AsList())
  {
    r := CheckOptions(width, height, boxes);
    if r.Success? {
      var unique := AppearancesUnique(appearance.AsList());
      if !unique {
        r := Failure(AppearanceNotUnique);
      }
    }
  }

  /**
   * With distinct glyphs, comparing a cell's glyph against a kind's glyph
   * (what the engine does) is the same as comparing tile kinds.
   */
  lemma GlyphsIdentifyTiles(a: Appearance, t: Tile, t': Tile)
    requires Distinct(a.AsList())
    ensures a.GlyphOf(t) == a.GlyphOf(t') <==> t == t'
  {
    var s := a.AsList();
    assert s[0] == a.player && s[1] == a.box && s[2] == a.boxOnGoal;
    assert s[3] == a.goal && s[4] == a.wall && s[5] == a.floor;
  }
}
