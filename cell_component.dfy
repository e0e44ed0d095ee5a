/**
 * The component that draws one maze cell in the visualizer,
 * src/visualizer/src/components/cell_component.py. A cell's wall mask
 * picks the wall sprite: the words of its closed walls (up, right, down,
 * left, in that order) joined by '-', then ".png"; a cell without walls
 * shows nothing and a fixed cell (part of the 42 logo) shows "fixed.png".
 * File names are relative to the sprites' walls folder.
 */
module CellSprites {
  import opened Wrappers
  import opened Walls
  import opened PyStr

  /** The word for each wall in a sprite name. */
  function WallWord(d: Direction): (w: string)
    ensures |w| > 0 && '-' !in w
  {
    match d
    case North => "up"
    case East => "right"
    case South => "down"
    case West => "left"
  }

  /** `"-".join([name, word])`. */
  function Appended(name: string, word: string): string
  {
    Join([name, word], '-')
  }

  /** `name.removeprefix("-")`. */
  function RemovePrefixDash(s: string): string
  {
    if |s| > 0 && s[0] == '-' then s[1..] else s
  }

  /** The optional word of one wall: present exactly when the wall is closed. */
  function WordIf(state: int, d: Direction): (r: seq<string>)
    ensures |r| <= 1 && (|r| == 1 <==> HasWall(state, d))
  {
    if HasWall(state, d) then [WallWord(d)] else []
  }

  /** The words of the closed walls, in the order the source tests them. */
  function WallWords(state: int): (r: seq<string>)
    ensures |r| <= 4 && forall k :: 0 <= k < |r| ==> '-' !in r[k]
  {
    WordIf(state, North) + WordIf(state, East) + WordIf(state, South) + WordIf(state, West)
  }

  /**
   * The name `on_update` grows for a cell state, one "-"-join per closed
   * wall, before its leading '-' is removed.
   */
  function GrownName(state: int): string
  {
    var n1 := if HasWall(state, North) then Appended("", "up") else "";
    var n2 := if HasWall(state, East) then Appended(n1, "right") else n1;
    var n3 := if HasWall(state, South) then Appended(n2, "down") else n2;
    if HasWall(state, West) then Appended(n3, "left") else n3
  }

  /** The file `on_update` shows for a cell state: None when no wall is closed. */
  function WallSpriteName(state: int): Option<string>
  {
    if state == 0 then None else Some(RemovePrefixDash(GrownName(state)) + ".png")
  }

  /** Every word preceded by '-': the name before its prefix is removed. */
  function Dashed(words: seq<string>): string
  {
    if words == [] then "" else ['-'] + words[0] + Dashed(words[1..])
  }

  lemma {:induction false} DashedAppend(a: seq<string>, b: seq<string>)
    ensures Dashed(a + b) == Dashed(a) + Dashed(b)
  {
    if a != [] {
      DashedAppend(a[1..], b);
      assert (a + b)[1..] == a[1..] + b;
    } else {
      assert a + b == b;
    }
  }

  lemma {:induction false} DashedJoin(words: seq<string>)
    requires |words| > 0
    ensures Dashed(words) == ['-'] + Join(words, '-')
  {
    if |words| > 1 {
      DashedJoin(words[1..]);
    }
  }

  /** One step of the name: joining a word on adds "-" and the word. */
  lemma AppendedStep(name: string, state: int, d: Direction)
    ensures (if HasWall(state, d) then Appended(name, WallWord(d)) else name) == name + Dashed(WordIf(state, d))
  {
    if HasWall(state, d) {
      var w := WallWord(d);
      assert [name, w][1..] == [w];
      assert Join([name, w], '-') == name + ['-'] + Join([w], '-');
      assert [w][1..] == [];
      assert Dashed([w]) == ['-'] + w;
      assert WordIf(state, d) == [w];
    } else {
      assert WordIf(state, d) == [];
    }
  }

  /** The grown name is every closed wall's word preceded by '-'. */
  lemma GrownDashed(state: int)
    ensures GrownName(state) == Dashed(WallWords(state))
  {
    var w1, w2, w3, w4 := WordIf(state, North), WordIf(state, East), WordIf(state, South), WordIf(state, West);
    AppendedStep("", state, North);
    var n1 := Dashed(w1);
    assert "" + n1 == n1;
    AppendedStep(n1, state, East);
    var n2 := n1 + Dashed(w2);
    AppendedStep(n2, state, South);
    var n3 := n2 + Dashed(w3);
    AppendedStep(n3, state, West);
    DashedAppend(w1, w2);
    DashedAppend(w1 + w2, w3);
    DashedAppend(w1 + w2 + w3, w4);
  }

  /**
   * The name `on_update` grows is the closed walls' words joined by '-',
   * then ".png"; a state without walls shows nothing.
   */
  lemma WallSpriteNameWords(state: int)
    ensures state == 0 ==> WallSpriteName(state).None?
    ensures state != 0 && |WallWords(state)| > 0 ==> WallSpriteName(state) == Some(Join(WallWords(state), '-') + ".png")
    ensures state != 0 && |WallWords(state)| == 0 ==> WallSpriteName(state) == Some(".png")
  {
    GrownDashed(state);
    var words := WallWords(state);
    if |words| > 0 {
      DashedJoin(words);
      var j := Join(words, '-');
      assert (['-'] + j)[1..] == j;
    } else {
      assert GrownName(state) == Dashed([]) == "";
      assert RemovePrefixDash("") + ".png" == ".png";
    }
  }

  /** A wall's word is among the words exactly when the wall is closed. */
  lemma WallWordsHave(state: int, d: Direction)
    ensures WallWord(d) in WallWords(state) <==> HasWall(state, d)
  {
    var w1, w2, w3, w4 := WordIf(state, North), WordIf(state, East), WordIf(state, South), WordIf(state, West);
    assert WallWords(state) == w1 + w2 + w3 + w4;
    assert WallWord(d) in WallWords(state) <==> WallWord(d) in w1 || WallWord(d) in w2 || WallWord(d) in w3 || WallWord(d) in w4;
  }

  /** Every mask with a wall closed names between one and four words, and its name starts with a word. */
  lemma WallSpriteNameShape(state: int)
    requires IsMask(state) && state != 0
    ensures 1 <= |WallWords(state)| <= 4
    ensures WallSpriteName(state).Some? && WallSpriteName(state).value[0] != '-'
  {
    MaskBits(state);
    var words := WallWords(state);
    assert HasWall(state, North) || HasWall(state, East) || HasWall(state, South) || HasWall(state, West);
    assert |words| == |WordIf(state, North)| + |WordIf(state, East)| + |WordIf(state, South)| + |WordIf(state, West)|;
    WallSpriteNameWords(state);
    assert words[0] != "";
    JoinStarts(words);
  }

  /** A join starts with its first piece. */
  lemma JoinStarts(parts: seq<string>)
    requires |parts| > 0 && |parts[0]| > 0 && '-' !in parts[0]
    ensures |Join(parts, '-')| > 0 && Join(parts, '-')[0] == parts[0][0]
  {
  }

  /** Distinct masks with walls show distinct sprites. */
  lemma WallSpriteNameInjective(a: int, b: int)
    requires IsMask(a) && IsMask(b) && a != 0 && b != 0
    requires WallSpriteName(a) == WallSpriteName(b)
    ensures a == b
  {
    WallSpriteNameShape(a);
    WallSpriteNameShape(b);
    WallSpriteNameWords(a);
    WallSpriteNameWords(b);
    var ja, jb := Join(WallWords(a), '-'), Join(WallWords(b), '-');
    assert ja + ".png" == jb + ".png";
    assert |ja| == |jb|;
    assert ja == (ja + ".png")[..|ja|];
    assert jb == (jb + ".png")[..|jb|];
    SplitJoin(WallWords(a), '-');
    SplitJoin(WallWords(b), '-');
    assert WallWords(a) == WallWords(b);
    forall d: Direction
      ensures HasWall(a, d) == HasWall(b, d)
    {
      WallWordsHave(a, d);
      WallWordsHave(b, d);
    }
    MaskExtensional(a, b);
  }

  /**
   * What the renderer shows after `on_update`: a fixed cell, and a cell
   * whose state differs from the one read by `on_init`, keep the sprite
   * they have; any other cell shows the sprite of its state.
   */
  function Shown(current: Option<string>, isFixed: bool, cached: int, state: int): Option<string>
  {
    if isFixed || cached != state then current else WallSpriteName(state)
  }

  /** The generator's cell dictionary, shared with the node that draws it. */
  class CellDict {
    var state: int
    var fixed: bool

    constructor (state: int, fixed: bool)
      ensures this.state == state && this.fixed == fixed
    {
      this.state := state;
      this.fixed := fixed;
    }
  }

  /** The sprite renderer of the cell's node: the file it shows, or None. */
  class Renderer {
    var file: Option<string>

    constructor (file: Option<string>)
      ensures this.file == file
    {
      this.file := file;
    }
  }

  class CellComponent {
    var cell: CellDict
    var renderer: Renderer
    var isFixed: bool
    var cachedState: int

    constructor (cell: CellDict, renderer: Renderer)
      ensures this.cell == cell && this.renderer == renderer && !isFixed
    {
      this.cell := cell;
      this.renderer := renderer;
      isFixed := false;
      cachedState := 0;
    }

    /** `on_init`: a fixed cell shows "fixed.png"; the cell's state is read once, here. */
    method OnInit()
      modifies this, renderer
      ensures cell == old(cell) && renderer == old(renderer)
      ensures isFixed == cell.fixed && cachedState == cell.state
      ensures renderer.file == if cell.fixed then Some("fixed.png") else old(renderer.file)
    {
      isFixed := false;
      if cell.fixed {
        isFixed := true;
        renderer.file := Some("fixed.png");
      }
      cachedState := cell.state;
    }

    /** `on_update`. */
    method OnUpdate()
      modifies renderer
      ensures renderer.file == Shown(old(renderer.file), isFixed, cachedState, cell.state)
    {
      if isFixed {
        return;
      }
      var state := cell.state;
      if cachedState != state {
        return;
      }
      if state == 0 {
        renderer.file := None;
        return;
      }
      var name := "";
      if HasWall(state, North) {
        name := Appended(name, "up");
      }
      if HasWall(state, East) {
        name := Appended(name, "right");
      }
      if HasWall(state, South) {
        name := Appended(name, "down");
      }
      if HasWall(state, West) {
        name := Appended(name, "left");
      }
      name := RemovePrefixDash(name);
      name := name + ".png";
      renderer.file := Some(name);
    }
  }
}
