/**
 * Buttons of a remote, reduced to the attributes the layout engine reads and
 * writes, and the lookups it performs on a remote's list of buttons.
 */
module Buttons {

  datatype Option<T> = None | Some(value: T)

  // Button identifiers. Button.java is not part of this model: the numeric
  // values are placeholders. The model relies only on 0 meaning "no button"
  // and on the named identifiers being distinct and non-zero.
  const ID_NONE: int := 0
  const ID_POWER: int := 1
  const ID_VOL_UP: int := 2
  const ID_VOL_DOWN: int := 3
  const ID_MUTE: int := 4
  const ID_CH_UP: int := 5
  const ID_CH_DOWN: int := 6
  const ID_MENU: int := 7
  const ID_NAV_UP: int := 8
  const ID_NAV_DOWN: int := 9
  const ID_NAV_LEFT: int := 10
  const ID_NAV_RIGHT: int := 11
  const ID_NAV_OK: int := 12
  const ID_DIGIT_0: int := 13
  const ID_DIGIT_1: int := 14
  const ID_DIGIT_2: int := 15
  const ID_DIGIT_3: int := 16
  const ID_DIGIT_4: int := 17
  const ID_DIGIT_5: int := 18
  const ID_DIGIT_6: int := 19
  const ID_DIGIT_7: int := 20
  const ID_DIGIT_8: int := 21
  const ID_DIGIT_9: int := 22
  const ID_RWD: int := 23
  const ID_PLAY: int := 24
  const ID_FFWD: int := 25
  const ID_REC: int := 26
  const ID_PREV: int := 27
  const ID_PAUSE: int := 28
  const ID_NEXT: int := 29
  const ID_STOP: int := 30

  // Background colours (Button.BG_*), placeholders for the same reason.
  const BG_TRANSPARENT: int := 0
  const BG_ORANGE: int := 1
  const BG_GREY: int := 2
  const BG_RED: int := 3
  const BG_BLUE_GREY: int := 4
  const BG_TEAL: int := 5

  /**
   * A button: its identifier (0 = no button), its position and size in
   * pixels, its background colour and the corner radius, in
   * device-independent units, that the organizer last gave it.
   */
  datatype Button = Button(id: int, x: int, y: int, w: int, h: int, bg: int, cornerDp: int)

  /** The index of the first button carrying `id`, if any (Remote.getButtonById). */
  function FindId(bs: seq<Button>, id: int): (r: Option<nat>)
    ensures r.Some? ==> r.value < |bs| && bs[r.value].id == id
  {
    if |bs| == 0 then None
    else if bs[0].id == id then Some(0)
    else match FindId(bs[1..], id)
      case None => None
      case Some(k) => Some(k + 1)
  }

  /**
   * The lookup finds the first button carrying `id`, and finds nothing
   * exactly when no button carries it.
   */
  lemma {:induction false} FindIdSpec(bs: seq<Button>, id: int)
    ensures FindId(bs, id).Some? ==> forall j :: 0 <= j < FindId(bs, id).value ==> bs[j].id != id
    ensures FindId(bs, id).None? <==> forall j :: 0 <= j < |bs| ==> bs[j].id != id
    decreases |bs|
  {
    if |bs| > 0 && bs[0].id != id {
      FindIdSpec(bs[1..], id);
      assert forall j :: 1 <= j < |bs| ==> bs[j] == bs[1..][j - 1];
    }
  }

  /** `bs` without its `k`-th element. */
  function Remove(bs: seq<Button>, k: nat): seq<Button>
    requires k < |bs|
  {
    bs[..k] + bs[k + 1..]
  }

  /** The identifiers of `bs`, in order. */
  function Ids(bs: seq<Button>): seq<int>
  {
    seq(|bs|, i requires 0 <= i < |bs| => bs[i].id)
  }

  /** A button with its position forgotten: what the placement pass must not change. */
  function Unplaced(b: Button): Button
  {
    b.(x := 0, y := 0)
  }

  function UnplacedAll(bs: seq<Button>): seq<Button>
  {
    seq(|bs|, i requires 0 <= i < |bs| => Unplaced(bs[i]))
  }

  /** The buttons of `bs` that carry identifier `id`, in order. */
  function WithId(bs: seq<Button>, id: int): (r: seq<Button>)
    ensures forall j :: 0 <= j < |r| ==> r[j].id == id
  {
    if |bs| == 0 then []
    else WithId(bs[..|bs| - 1], id) + (if bs[|bs| - 1].id == id then [bs[|bs| - 1]] else [])
  }

  lemma UnplacedAllAppend(a: seq<Button>, b: seq<Button>)
    ensures UnplacedAll(a + b) == UnplacedAll(a) + UnplacedAll(b)
  {
  }

  /** Removing the `k`-th button takes exactly that button out of the multiset. */
  lemma RemoveMultiset(bs: seq<Button>, k: nat)
    requires k < |bs|
    ensures multiset(UnplacedAll(bs)) == multiset(UnplacedAll(Remove(bs, k))) + multiset{Unplaced(bs[k])}
  {
    assert bs == bs[..k] + [bs[k]] + bs[k + 1..];
    UnplacedAllAppend(bs[..k] + [bs[k]], bs[k + 1..]);
    UnplacedAllAppend(bs[..k], [bs[k]]);
    UnplacedAllAppend(bs[..k], bs[k + 1..]);
  }

  /** Removing a button that does not carry `id` keeps the buttons carrying `id` as they were. */
  lemma {:induction false} WithIdRemove(bs: seq<Button>, k: nat, id: int)
    requires k < |bs| && bs[k].id != id
    ensures WithId(Remove(bs, k), id) == WithId(bs, id)
    decreases |bs|
  {
    var n := |bs| - 1;
    if k == n {
      assert Remove(bs, k) == bs[..n];
    } else {
      var r := Remove(bs, k);
      assert r[..|r| - 1] == Remove(bs[..n], k);
      assert r[|r| - 1] == bs[n];
      WithIdRemove(bs[..n], k, id);
    }
  }

  lemma {:induction false} WithIdAppend(a: seq<Button>, b: seq<Button>, id: int)
    ensures WithId(a + b, id) == WithId(a, id) + WithId(b, id)
    decreases |b|
  {
    if |b| == 0 {
      assert a + b == a;
    } else {
      var n := |b| - 1;
      assert (a + b)[..|a + b| - 1] == a + b[..n];
      WithIdAppend(a, b[..n], id);
    }
  }

  /** No button carries `id` exactly when the buttons carrying it are none. */
  lemma {:induction false} WithIdEmpty(bs: seq<Button>, id: int)
    ensures WithId(bs, id) == [] <==> forall j :: 0 <= j < |bs| ==> bs[j].id != id
    decreases |bs|
  {
    if |bs| > 0 {
      var n := |bs| - 1;
      WithIdEmpty(bs[..n], id);
      assert forall j :: 0 <= j < n ==> bs[..n][j] == bs[j];
    }
  }

  /**
   * The lookup and the filter agree: the button the lookup finds is the first
   * of those carrying `id`, and taking it out leaves the others in order.
   */
  lemma FindIdFirst(bs: seq<Button>, id: int)
    ensures FindId(bs, id).None? <==> WithId(bs, id) == []
    ensures FindId(bs, id).Some? ==>
      WithId(bs, id) == [bs[FindId(bs, id).value]] + WithId(Remove(bs, FindId(bs, id).value), id)
  {
    FindIdSpec(bs, id);
    WithIdEmpty(bs, id);
    if FindId(bs, id).Some? {
      WithIdSplit(bs, id, FindId(bs, id).value);
    }
  }

  /** When `k` is the first button carrying `id`, the buttons carrying `id` are it, then those after it. */
  lemma WithIdSplit(bs: seq<Button>, id: int, k: nat)
    requires k < |bs| && bs[k].id == id
    requires forall j :: 0 <= j < k ==> bs[j].id != id
    ensures WithId(bs, id) == [bs[k]] + WithId(Remove(bs, k), id)
  {
    assert WithId(bs[..k], id) == [] by {
      assert forall j :: 0 <= j < k ==> bs[..k][j] == bs[j];
      WithIdEmpty(bs[..k], id);
    }
    assert WithId(bs[..k + 1], id) == [bs[k]] by {
      assert bs[..k + 1][..k] == bs[..k];
    }
    assert bs == bs[..k + 1] + bs[k + 1..];
    WithIdAppend(bs[..k + 1], bs[k + 1..], id);
    WithIdAppend(bs[..k], bs[k + 1..], id);
  }

  /** In a list that starts with id-0 buttons, the first match of a non-zero id lies after them. */
  lemma FindIdAfterZeros(z: seq<Button>, s: seq<Button>, id: int)
    requires forall j :: 0 <= j < |z| ==> z[j].id == ID_NONE
    requires id != ID_NONE && |s| > 0 && s[0].id == id
    ensures FindId(z + s, id) == Some(|z|)
  {
    FindIdSpec(z + s, id);
    assert (z + s)[|z|].id == id;
    assert forall j :: 0 <= j < |z| ==> (z + s)[j] == z[j];
  }
}
