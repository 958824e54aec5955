/** The image CAPTCHA of the signup page: a checkbox that opens a grid of nine pictures, a selection
    that each click toggles, and a verdict that passes only when every dog and nothing else is
    selected. The pictures themselves, the shuffle of the grid and the rendering are not modelled. */
module Captcha {
  import opened Js

  datatype Image = Image(id: int, isDog: bool)

  /** The nine pictures: the odd ids are dogs, the even ids cats and pigs. */
  const Images: seq<Image> := [
    Image(1, true), Image(2, false), Image(3, true), Image(4, false), Image(5, true),
    Image(6, false), Image(7, true), Image(8, false), Image(9, true)]

  /** images.find by id over the given table: the first picture with the id, if any. */
  function Find(table: seq<Image>, id: int): (r: Option<Image>)
    ensures r.Some? ==> r.value in table && r.value.id == id
    ensures r.None? ==> forall k :: 0 <= k < |table| ==> table[k].id != id
  {
    if table == [] then None
    else if table[0].id == id then Some(table[0])
    else Find(table[1..], id)
  }

  /** The filter of handleVerify: a known picture that is not a dog. Unknown ids do not count. */
  predicate IsNonDog(table: seq<Image>, id: int) {
    var image := Find(table, id);
    image.Some? && !image.value.isDog
  }

  /** selectedImages.filter(id => image && !image.isDog). */
  function SelectedNonDogs(table: seq<Image>, selected: seq<int>): seq<int> {
    if selected == [] then []
    else (if IsNonDog(table, selected[0]) then [selected[0]] else []) + SelectedNonDogs(table, selected[1..])
  }

  /** The filter keeps exactly the selected non-dogs. */
  lemma {:induction false} SelectedNonDogsSpec(table: seq<Image>, selected: seq<int>)
    ensures forall x :: x in SelectedNonDogs(table, selected) <==> x in selected && IsNonDog(table, x)
  {
    if selected != [] {
      SelectedNonDogsSpec(table, selected[1..]);
      assert selected == [selected[0]] + selected[1..];
    }
  }

  /** images.filter(img => img.isDog).map(img => img.id). */
  function DogIds(table: seq<Image>): seq<int> {
    if table == [] then []
    else (if table[0].isDog then [table[0].id] else []) + DogIds(table[1..])
  }

  /** allDogs.every(dogId => selectedImages.includes(dogId)). */
  predicate AllDogsSelected(table: seq<Image>, selected: seq<int>) {
    forall d :: d in DogIds(table) ==> d in selected
  }

  datatype Verdict = OnlyDogs | AllDogs | Passed

  /** handleVerify's decision: a selected non-dog is reported first, then a missing dog. */
  function Decide(table: seq<Image>, selected: seq<int>): Verdict {
    if |SelectedNonDogs(table, selected)| > 0 then OnlyDogs
    else if !AllDogsSelected(table, selected) then AllDogs
    else Passed
  }

  function DialogText(v: Verdict): string {
    match v
    case OnlyDogs => "Please select only the pictures of dogs."
    case AllDogs => "Please select all the dog pictures."
    case Passed => "Captcha verified successfully!"
  }

  /** The new list of handleImageClick: a selected id is filtered out, any other id is appended. */
  function Toggle(selected: seq<int>, id: int): seq<int> {
    if id in selected then Remove(selected, id) else selected + [id]
  }

  /** filter(imageId => imageId !== id). */
  function Remove(s: seq<int>, id: int): (r: seq<int>)
    ensures forall x :: x in r <==> x in s && x != id
    ensures |r| <= |s|
  {
    if s == [] then [] else (if s[0] == id then [] else [s[0]]) + Remove(s[1..], id)
  }

  predicate NoDuplicates(s: seq<int>) {
    forall i, j :: 0 <= i < j < |s| ==> s[i] != s[j]
  }

  /** The ids of the dogs are 1, 3, 5, 7 and 9. */
  lemma DogIdsAre()
    ensures DogIds(Images) == [1, 3, 5, 7, 9]
  {
    var t := Images;
    assert t[1..][1..][1..][1..][1..][1..][1..][1..][1..] == [];
  }

  /** A click flips the membership of its id and leaves every other id as it was. */
  lemma ToggleFlips(selected: seq<int>, id: int, x: int)
    ensures x in Toggle(selected, id) <==> if x == id then id !in selected else x in selected
  {
  }

  /** Removing from a list without duplicates keeps it without duplicates. */
  lemma {:induction false} RemoveNoDuplicates(s: seq<int>, id: int)
    requires NoDuplicates(s)
    ensures NoDuplicates(Remove(s, id))
  {
    if s != [] {
      RemoveNoDuplicates(s[1..], id);
      var rest := Remove(s[1..], id);
      if s[0] != id {
        var r := [s[0]] + rest;
        assert Remove(s, id) == r;
        forall i, j | 0 <= i < j < |r|
          ensures r[i] != r[j]
        {
          if i == 0 {
            assert r[j] in rest;
          } else {
            assert r[i] == rest[i - 1] && r[j] == rest[j - 1];
          }
        }
      } else {
        assert Remove(s, id) == rest;
      }
    }
  }

  /** The selection list never holds an id twice. */
  lemma ToggleNoDuplicates(selected: seq<int>, id: int)
    requires NoDuplicates(selected)
    ensures NoDuplicates(Toggle(selected, id))
  {
    if id in selected {
      RemoveNoDuplicates(selected, id);
    } else {
      var r := selected + [id];
      forall i, j | 0 <= i < j < |r|
        ensures r[i] != r[j]
      {
        if j == |selected| {
          assert r[i] in selected;
        }
      }
    }
  }

  /** Removing an id that is not there changes nothing. */
  lemma {:induction false} RemoveAbsent(s: seq<int>, id: int)
    requires id !in s
    ensures Remove(s, id) == s
  {
    if s != [] {
      RemoveAbsent(s[1..], id);
      assert s == [s[0]] + s[1..];
    }
  }

  /** Two clicks on the same id give back the same selection as a set; when the id was not selected,
      the very same list. */
  lemma ToggleTwice(selected: seq<int>, id: int)
    ensures forall x :: x in Toggle(Toggle(selected, id), id) <==> x in selected
    ensures id !in selected ==> Toggle(Toggle(selected, id), id) == selected
  {
    if id !in selected {
      var once := selected + [id];
      assert once[..|selected|] == selected;
      RemoveAppended(selected, id);
    }
  }

  lemma RemoveAppended(s: seq<int>, id: int)
    requires id !in s
    ensures Remove(s + [id], id) == s
  {
    RemoveAbsent(s, id);
    RemoveConcat(s, [id], id);
    assert Remove([id], id) == [];
  }

  lemma {:induction false} RemoveConcat(a: seq<int>, b: seq<int>, id: int)
    ensures Remove(a + b, id) == Remove(a, id) + Remove(b, id)
  {
    if a != [] {
      RemoveConcat(a[1..], b, id);
      assert (a + b)[1..] == a[1..] + b;
    } else {
      assert a + b == b;
    }
  }

  /** The CAPTCHA passes exactly when every dog id 1, 3, 5, 7, 9 is selected and none of the known
      non-dog ids 2, 4, 6, 8 is; other ids are ignored. */
  lemma DecidePassed(selected: seq<int>)
    ensures Decide(Images, selected) == Passed <==>
      (forall d :: d in {1, 3, 5, 7, 9} ==> d in selected) && (forall x :: x in selected ==> x !in {2, 4, 6, 8})
  {
    DogIdsAre();
    NonDogIds();
    SelectedNonDogsSpec(Images, selected);
    var nonDogs := SelectedNonDogs(Images, selected);
    var onlyDogs := forall x :: x in selected ==> x !in {2, 4, 6, 8};
    if |nonDogs| > 0 {
      var x := nonDogs[0];
      assert x in selected && IsNonDog(Images, x);
      assert !onlyDogs;
    }
  }

  /** The known non-dog ids are 2, 4, 6 and 8. */
  lemma NonDogIds()
    ensures forall x :: IsNonDog(Images, x) <==> x in {2, 4, 6, 8}
  {
    forall x
      ensures IsNonDog(Images, x) <==> x in {2, 4, 6, 8}
    {
      var image := Find(Images, x);
      if image.Some? {
        assert image.value.id == x && image.value in Images;
      }
      if x in {2, 4, 6, 8} {
        assert Images[x - 1].id == x;
      }
    }
  }

  /** A selected non-dog is reported whatever else is selected, even with every dog selected. */
  lemma NonDogFirst(selected: seq<int>, x: int)
    requires x in selected && x in {2, 4, 6, 8}
    ensures Decide(Images, selected) == OnlyDogs
  {
    NonDogIds();
    SelectedNonDogsSpec(Images, selected);
  }

  /** The state of the widget. */
  class Widget {
    /** The component's own table of pictures. */
    const images: seq<Image>
    var isChecked: bool
    var selected: seq<int>
    var showImageGrid: bool
    var showDialog: bool
    var dialogMessage: string
    var isVerified: bool

    predicate Valid()
      reads this
    {
      NoDuplicates(selected)
    }

    constructor ()
      ensures Valid() && images == Images
      ensures !isChecked && selected == [] && !showImageGrid && !showDialog && dialogMessage == ""
      ensures !isVerified
    {
      images := Images;
      isChecked, selected, showImageGrid := false, [], false;
      showDialog, dialogMessage, isVerified := false, "", false;
    }

    /** handleCheckboxChange: the box follows the click until the CAPTCHA has passed. */
    method CheckboxChange(checked: bool)
      modifies this`isChecked
      ensures isChecked == if old(isVerified) then old(isChecked) else checked
    {
      if !isVerified {
        isChecked := checked;
      }
    }

    /** The timer of the effect: once the box is checked and the CAPTCHA has not passed, the grid
        opens. */
    method GridTimer()
      modifies this`showImageGrid
      ensures showImageGrid == (old(showImageGrid) || (isChecked && !isVerified))
    {
      if isChecked && !isVerified {
        showImageGrid := true;
      }
    }

    /** handleImageClick. */
    method ImageClick(id: int)
      requires Valid()
      modifies this`selected
      ensures Valid() && selected == Toggle(old(selected), id)
    {
      ToggleNoDuplicates(selected, id);
      if id in selected {
        selected := Remove(selected, id);
      } else {
        selected := selected + [id];
      }
    }

    /** handleVerify: the dialog shows the verdict; on success the widget is marked verified and
        checked, the grid closes and the page is notified. */
    method HandleVerify() returns (notified: bool)
      modifies this`isVerified, this`isChecked, this`dialogMessage, this`showDialog, this`showImageGrid
      ensures notified <==> Decide(images, selected) == Passed
      ensures dialogMessage == DialogText(Decide(images, selected)) && showDialog
      ensures notified ==> isVerified && isChecked && !showImageGrid
      ensures !notified ==> isVerified == old(isVerified) && isChecked == old(isChecked)
                            && showImageGrid == old(showImageGrid)
    {
      var verdict := Decide(images, selected);
      if verdict == OnlyDogs {
        dialogMessage := DialogText(OnlyDogs);
        showDialog := true;
        notified := false;
      } else if verdict == AllDogs {
        dialogMessage := DialogText(AllDogs);
        showDialog := true;
        notified := false;
      } else {
        isVerified := true;
        isChecked := true;
        dialogMessage := DialogText(Passed);
        showDialog := true;
        showImageGrid := false;
        notified := true;
      }
    }

    /** handleCloseDialog: the dialog closes, everything else stays. */
    method CloseDialog()
      modifies this`showDialog
      ensures !showDialog
    {
      showDialog := false;
    }

    /** resetCaptcha: unchecked, nothing selected, the grid closed and the verdict cleared. */
    method Reset()
      modifies this`isChecked, this`selected, this`showImageGrid, this`isVerified
      ensures Valid()
      ensures !isChecked && selected == [] && !showImageGrid && !isVerified
    {
      isChecked, selected, showImageGrid, isVerified := false, [], false, false;
    }
  }
}
