/** The two cosmetic selectors of the game screen: which meme face the bird
    wears and whether the night or the day palette is shown. Neither affects
    physics, collisions or scoring. */
module Cosmetics {

  /** Number of entries in the table of meme faces. */
  const MemeCount: nat := 8

  datatype Theme = Night | Day

  /** The "next meme" button: advance the face index, wrapping after the last. */
  function NextMeme(prev: nat): (r: nat)
    ensures r < MemeCount
    ensures prev < MemeCount - 1 ==> r == prev + 1
    ensures prev == MemeCount - 1 ==> r == 0
  {
    (prev + 1) % MemeCount
  }

  /** The face index after pressing the button `k` times. */
  function PressNextMeme(m: nat, k: nat): (r: nat)
  {
    if k == 0 then m else NextMeme(PressNextMeme(m, k - 1))
  }

  /** Pressing `k` times moves `k` places round the table of faces. */
  lemma {:induction false} PressNextMemeMovesBy(m: nat, k: nat)
    requires m < MemeCount
    ensures PressNextMeme(m, k) == (m + k) % MemeCount
  {
    if k > 0 {
      PressNextMemeMovesBy(m, k - 1);
      var prev := (m + k - 1) % MemeCount;
      assert (prev + 1) % MemeCount == (m + k) % MemeCount;
    }
  }

  /** The faces form one cycle: after a full round every face is back, and no
      shorter round returns to the starting face. */
  lemma MemeCycleIsFull(m: nat, k: nat)
    requires m < MemeCount && 0 < k <= MemeCount
    ensures PressNextMeme(m, k) == m <==> k == MemeCount
  {
    PressNextMemeMovesBy(m, k);
  }

  /** The theme button flips between the two palettes. */
  function ToggleTheme(t: Theme): (r: Theme)
    ensures r != t
  {
    if t == Night then Day else Night
  }
}
