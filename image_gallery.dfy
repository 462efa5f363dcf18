/**
 * The gallery page: the listed images, the public ids ticked for deletion,
 * and the per-image See More flags for long descriptions.
 */
module ImageGalleryPage {
  import opened Wrappers
  import opened JsText
  import Display
  import IC = ImageController

  /** How many description characters a collapsed card shows, and what follows them. */
  const DescriptionLimit: nat := 50
  const DescriptionEllipsis: string := "... "

  /** handleCheckboxChange's update: untick a ticked id, tick an unticked one at the end. */
  function Toggle(selected: seq<string>, id: string): (r: seq<string>)
    ensures id in r <==> id !in selected
    ensures forall x :: x != id ==> (x in r <==> x in selected)
  {
    if id in selected then Filter(selected, (x: string) => x != id) else selected + [id]
  }

  /** Ticking twice gives back the same ticked set. */
  lemma ToggleTwiceRestoresMembership(selected: seq<string>, id: string)
    ensures forall x :: x in Toggle(Toggle(selected, id), id) <==> x in selected
  {
  }

  /** Ticking an unticked id and unticking it again gives back the very same list. */
  lemma ToggleTwiceFromUnticked(selected: seq<string>, id: string)
    requires id !in selected
    ensures Toggle(Toggle(selected, id), id) == selected
  {
    var keep := (x: string) => x != id;
    FilterConcat(selected, [id], keep);
    FilterKeepsAll(selected, keep);
    assert Filter([id], keep) == [];
  }

  /** No id is ticked twice. */
  predicate Distinct(s: seq<string>) {
    forall i, j :: 0 <= i < j < |s| ==> s[i] != s[j]
  }

  /** Ticking keeps the ticked ids distinct. */
  lemma ToggleKeepsDistinct(selected: seq<string>, id: string)
    requires Distinct(selected)
    ensures Distinct(Toggle(selected, id))
  {
    if id in selected {
      FilterDistinct(selected, (x: string) => x != id);
    } else {
      var r := selected + [id];
      forall i, j | 0 <= i < j < |r| ensures r[i] != r[j] {
        if j == |selected| {
          assert r[i] == selected[i];
        }
      }
    }
  }

  lemma {:induction false} FilterDistinct(s: seq<string>, keep: string -> bool)
    requires Distinct(s)
    ensures Distinct(Filter(s, keep))
    decreases |s|
  {
    if s != [] {
      assert Distinct(s[1..]) by {
        forall i, j | 0 <= i < j < |s[1..]| ensures s[1..][i] != s[1..][j] {
          assert s[1..][i] == s[i + 1] && s[1..][j] == s[j + 1];
        }
      }
      FilterDistinct(s[1..], keep);
      var rest := Filter(s[1..], keep);
      assert s[0] !in s[1..] by {
        forall k | 0 <= k < |s[1..]| ensures s[1..][k] != s[0] {
          assert s[1..][k] == s[k + 1];
        }
      }
      assert s[0] !in rest;
      var r := Filter(s, keep);
      if keep(s[0]) {
        assert r == [s[0]] + rest;
        forall i, j | 0 <= i < j < |r| ensures r[i] != r[j] {
          assert r[j] == rest[j - 1];
          if i > 0 {
            assert r[i] == rest[i - 1];
          }
        }
      } else {
        assert r == rest;
      }
    }
  }

  /** `expanded[id]`, absent meaning false. */
  predicate IsExpanded(expanded: map<string, bool>, id: string) {
    id in expanded && expanded[id]
  }

  /** The description as the card shows it. */
  function DescriptionShown(description: string, expanded: bool): string {
    Display.Collapse(description, DescriptionLimit, DescriptionEllipsis, expanded)
  }

  /** The See More / See Less control is rendered. */
  predicate SeeMoreShown(description: string) {
    Display.IsLong(description, DescriptionLimit)
  }

  /**
   * A collapsed long description shows its first 50 characters and "... ";
   * otherwise the description is shown whole.
   */
  lemma DescriptionDisplay(description: string, expanded: bool)
    ensures SeeMoreShown(description) && !expanded ==>
      DescriptionShown(description, expanded) == description[..50] + "... "
    ensures !SeeMoreShown(description) || expanded ==> DescriptionShown(description, expanded) == description
  {
  }

  /** The images that stay listed after a delete of `selected`. */
  function Remaining(images: seq<IC.ImageDoc>, selected: seq<string>): (r: seq<IC.ImageDoc>)
    ensures forall img :: img in r <==> img in images && img.publicId !in selected
  {
    Filter(images, (img: IC.ImageDoc) => img.publicId !in selected)
  }

  /** Removing the deleted images keeps the others in their order. */
  lemma RemainingKeepsOrder(a: seq<IC.ImageDoc>, b: seq<IC.ImageDoc>, selected: seq<string>)
    ensures Remaining(a + b, selected) == Remaining(a, selected) + Remaining(b, selected)
  {
    FilterConcat(a, b, (img: IC.ImageDoc) => img.publicId !in selected);
  }

  /** The page's state. */
  class Gallery {
    var images: seq<IC.ImageDoc>
    var selected: seq<string>
    var expanded: map<string, bool>
    var loading: bool
    var error: bool

    constructor ()
      ensures images == [] && selected == [] && expanded == map[] && !loading && !error
    {
      images, selected, expanded, loading, error := [], [], map[], false, false;
    }

    /** fetchImages: `listed` is the server's list, or None when the request fails. */
    method FetchImages(listed: Option<seq<IC.ImageDoc>>)
      modifies this`images, this`loading, this`error
      ensures !loading
      ensures error == listed.None?
      ensures images == if listed.Some? then listed.value else old(images)
    {
      loading, error := true, false;
      if listed.Some? {
        images := listed.value;
      } else {
        error := true;
      }
      loading := false;
    }

    /** handleCheckboxChange. */
    method HandleCheckboxChange(publicId: string)
      modifies this`selected
      ensures selected == Toggle(old(selected), publicId)
    {
      selected := Toggle(selected, publicId);
    }

    /** toggleExpand: flips that card's flag and no other. */
    method ToggleExpand(publicId: string)
      modifies this`expanded
      ensures IsExpanded(expanded, publicId) == !IsExpanded(old(expanded), publicId)
      ensures forall id :: id != publicId ==> IsExpanded(expanded, id) == IsExpanded(old(expanded), id)
    {
      expanded := expanded[publicId := !IsExpanded(expanded, publicId)];
    }

    /**
     * handleDelete. With nothing ticked nothing is sent. Otherwise the
     * ticked ids are sent; `deleteOk` is whether the request succeeds:
     * then the ticked images leave the list and the ticks are cleared,
     * else the list and the ticks stay and the error is shown.
     */
    method HandleDelete(deleteOk: bool) returns (sent: Option<seq<string>>)
      modifies this`images, this`selected, this`loading, this`error
      ensures old(selected) == [] ==>
        sent == None && images == old(images) && selected == old(selected)
        && loading == old(loading) && error == old(error)
      ensures old(selected) != [] ==> sent == Some(old(selected)) && !loading && error == !deleteOk
      ensures old(selected) != [] && deleteOk ==> images == Remaining(old(images), old(selected)) && selected == []
      ensures old(selected) != [] && !deleteOk ==> images == old(images) && selected == old(selected)
    {
      if |selected| == 0 {
        return None;
      }
      loading, error := true, false;
      sent := Some(selected);
      if deleteOk {
        images := Remaining(images, selected);
        selected := [];
      } else {
        error := true;
      }
      loading := false;
    }
  }
}
