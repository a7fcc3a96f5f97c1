/**
 * The sprites previewer: a copy of the sprite names shown on a text panel and a cursor over them that
 * `MoveLeft` and `MoveRight` turn round the list in either direction.
 */
module SpritesPreviewers {
  import opened Wrappers
  import opened Ints

  /** The cursor one step to the left on a ring of `count` places, as `MoveLeft` computes it. */
  function Left(i: nat, count: nat): nat
    requires i < count
  {
    if i == 0 then count - 1 else i - 1
  }

  /** The cursor one step to the right, as the setter reduces `i + 1`. */
  function Right(i: nat, count: nat): nat
    requires i < count
  {
    (i + 1) % count
  }

  /** Both moves stay on the ring, and they are the decrement and increment modulo `count`. */
  lemma MovesAreModular(i: nat, count: nat)
    requires i < count
    ensures Left(i, count) < count && Right(i, count) < count
    ensures Left(i, count) == (i + count - 1) % count
    ensures Right(i, count) == if i == count - 1 then 0 else i + 1
  {
    if i == 0 {
      assert (count - 1) % count == count - 1;
    } else {
      assert (i + count - 1) % count == i - 1 by {
        assert i + count - 1 == (i - 1) + count;
      }
    }
  }

  lemma SmallMod(x: nat, m: nat)
    requires x < m
    ensures x % m == x
  {
  }

  /** A move to the right undoes a move to the left, and the other way round. */
  lemma MovesAreInverse(i: nat, count: nat)
    requires i < count
    ensures Right(Left(i, count), count) == i
    ensures Left(Right(i, count), count) == i
  {
    MovesAreModular(i, count);
    MovesAreModular(Left(i, count), count);
  }

  class SpritesPreviewer {
    /** `sprites`: the previewer's own copy of the names. */
    var sprites: array<string>
    /** `selectedSpriteIndex`, a `uint`. */
    var selectedSpriteIndex: uint32

    /** The cursor is on a sprite, or at 0 when there is none; a .NET array holds fewer than 2^31 elements. */
    ghost predicate Valid()
      reads this
    {
      sprites.Length < Two32 / 2
      && (if sprites.Length == 0 then selectedSpriteIndex == 0 else selectedSpriteIndex < sprites.Length)
    }

    /** Copies the given names (none for `null`) and starts at the first one. */
    constructor(names: Option<seq<string>>)
      requires names.Some? ==> |names.value| < Two32 / 2
      ensures Valid() && fresh(sprites)
      ensures sprites[..] == names.GetOr([]) && selectedSpriteIndex == 0
    {
      selectedSpriteIndex := 0;
      if names.None? {
        sprites := new string[0];
      } else {
        var copy := new string[|names.value|];
        for index := 0 to copy.Length
          invariant copy[..index] == names.value[..index]
        {
          copy[index] := names.value[index];
        }
        sprites := copy;
      }
    }

    /** `SelectedSprite`: no sprite exactly when the list is empty, otherwise the one under the cursor. */
    function SelectedSprite(): (r: Option<string>)
      reads this, sprites
      requires Valid()
      ensures r.None? <==> sprites.Length == 0
      ensures r.Some? ==> r.value in sprites[..]
    {
      if sprites.Length > 0 then Some(sprites[selectedSpriteIndex]) else None
    }

    /** The `SelectedSpritesIndex` setter: reduces the value modulo the count, and ignores it when there
        are no sprites. */
    method SetSelectedSpritesIndex(value: uint32)
      requires Valid()
      modifies this`selectedSpriteIndex
      ensures Valid()
      ensures sprites.Length > 0 ==> selectedSpriteIndex == value % sprites.Length
      ensures sprites.Length == 0 ==> selectedSpriteIndex == old(selectedSpriteIndex)
    {
      if sprites.Length > 0 {
        selectedSpriteIndex := value % sprites.Length;
      }
    }
  }

  /** `MoveLeft`: from the first sprite to the last, otherwise one back. */
  method MoveLeft(previewer: SpritesPreviewer)
    requires previewer.Valid()
    modifies previewer`selectedSpriteIndex
    ensures previewer.Valid()
    ensures previewer.sprites.Length > 0 ==>
      previewer.selectedSpriteIndex == Left(old(previewer.selectedSpriteIndex), previewer.sprites.Length)
    ensures previewer.sprites.Length == 0 ==> previewer.selectedSpriteIndex == 0
  {
    var count := previewer.sprites.Length;
    if previewer.selectedSpriteIndex == 0 {
      var value := if count > 0 then count - 1 else 0;
      if count > 0 {
        SmallMod(value, count);
      }
      previewer.SetSelectedSpritesIndex(value);
    } else {
      var value := previewer.selectedSpriteIndex - 1;
      SmallMod(value, count);
      previewer.SetSelectedSpritesIndex(value);
    }
  }

  /** `MoveRight`: the `uint` increment (wrapping at 2^32), reduced by the setter. */
  method MoveRight(previewer: SpritesPreviewer)
    requires previewer.Valid()
    modifies previewer`selectedSpriteIndex
    ensures previewer.Valid()
    ensures previewer.sprites.Length > 0 ==>
      previewer.selectedSpriteIndex == Right(old(previewer.selectedSpriteIndex), previewer.sprites.Length)
    ensures previewer.sprites.Length == 0 ==> previewer.selectedSpriteIndex == 0
  {
    previewer.SetSelectedSpritesIndex((previewer.selectedSpriteIndex + 1) % Two32);
  }

  /** `MoveRight` after `MoveLeft` brings the cursor back to where it was. */
  method MoveLeftThenRight(previewer: SpritesPreviewer)
    requires previewer.Valid()
    modifies previewer`selectedSpriteIndex
    ensures previewer.Valid() && previewer.selectedSpriteIndex == old(previewer.selectedSpriteIndex)
  {
    MoveLeft(previewer);
    MoveRight(previewer);
    if previewer.sprites.Length > 0 {
      MovesAreInverse(old(previewer.selectedSpriteIndex), previewer.sprites.Length);
    }
  }
}
