/** The photo manager of the web form: the list of uploaded photos that the
    parent form holds, and the operations the component applies to it before
    handing the new list back (`onImagesChange`): adding files, rotating,
    captioning, removing and reordering; plus the texts it shows under each
    photo and in its summary. Object URLs, file sizes and timestamps are not
    modelled. */
module ImageManager {
  import opened Util
  import Translation
  import HeaderSelection
  import PdfWithFooter

  /** A chosen file: its name and its MIME type. */
  datatype File = File(name: string, mimeType: string)

  /** One entry of the list (`ImageData` without the preview URL and the timestamp). */
  datatype ImageEntry = ImageEntry(id: string, fileName: string, fileType: string, caption: string, rotation: int)

  predicate IsImageType(mimeType: string)
  {
    StartsWith(mimeType, "image/")
  }

  predicate DistinctIds(images: seq<ImageEntry>)
  {
    forall i, j :: 0 <= i < j < |images| ==> images[i].id != images[j].id
  }

  function Ids(images: seq<ImageEntry>): (ids: set<string>)
    ensures forall k :: 0 <= k < |images| ==> images[k].id in ids
    ensures forall x :: x in ids ==> exists k :: 0 <= k < |images| && images[k].id == x
  {
    set k | 0 <= k < |images| :: images[k].id
  }

  // ---------------------------------------------------------------------------
  // Adding files
  // ---------------------------------------------------------------------------

  /** The files whose type starts with `image/`, in the order they were chosen. */
  function ImageFiles(files: seq<File>): (r: seq<File>)
    ensures |r| <= |files|
    ensures forall f :: f in r <==> f in files && IsImageType(f.mimeType)
  {
    if files == [] then []
    else
      var last := files[|files| - 1];
      assert files == files[..|files| - 1] + [last];
      ImageFiles(files[..|files| - 1]) + (if IsImageType(last.mimeType) then [last] else [])
  }

  /** The entries made for a batch of files: one per image file, in order,
      the `k`-th with the `k`-th generated id, an empty caption and no rotation. */
  function NewEntries(files: seq<File>, freshId: nat -> string): (r: seq<ImageEntry>)
    ensures |r| == |ImageFiles(files)|
  {
    if files == [] then []
    else
      var last := files[|files| - 1];
      var prev := NewEntries(files[..|files| - 1], freshId);
      if IsImageType(last.mimeType) then prev + [ImageEntry(freshId(|prev|), last.name, last.mimeType, "", 0)]
      else prev
  }

  /** `handleFileChange(files)`: without a file list nothing changes; otherwise
      the entries for the image files are appended to the list. `freshId(k)`
      stands for the id `generateId` returns for the `k`-th new entry. */
  method HandleFileChange(images: seq<ImageEntry>, files: Option<seq<File>>, freshId: nat -> string)
    returns (r: seq<ImageEntry>)
    ensures files.None? ==> r == images
    ensures files.Some? ==> r == images + NewEntries(files.value, freshId)
  {
    if files.None? {
      return images;
    }
    var fs := files.value;
    var newImages: seq<ImageEntry> := [];
    var i := 0;
    while i < |fs|
      invariant 0 <= i <= |fs|
      invariant newImages == NewEntries(fs[..i], freshId)
    {
      NewEntriesStep(fs, i, freshId);
      newImages := AddIfImage(newImages, fs[i], freshId);
      i := i + 1;
    }
    assert fs[..i] == fs;
    r := images + newImages;
  }

  /** The `k`-th new entry is made from the `k`-th image file, with the `k`-th
      generated id, an empty caption and no rotation. */
  lemma {:induction false} NewEntriesAt(files: seq<File>, freshId: nat -> string)
    ensures var r := NewEntries(files, freshId);
      forall k :: 0 <= k < |r| ==>
        r[k] == ImageEntry(freshId(k), ImageFiles(files)[k].name, ImageFiles(files)[k].mimeType, "", 0)
  {
    if files != [] {
      var init, last := files[..|files| - 1], files[|files| - 1];
      NewEntriesAt(init, freshId);
      assert ImageFiles(files) == ImageFiles(init) + (if IsImageType(last.mimeType) then [last] else []);
    }
  }

  /** The body of the loop over the chosen files: an image file gets the
      next generated id, an empty caption and no rotation. */
  method AddIfImage(newImages: seq<ImageEntry>, file: File, freshId: nat -> string) returns (r: seq<ImageEntry>)
    ensures r == newImages + if IsImageType(file.mimeType) then [ImageEntry(freshId(|newImages|), file.name, file.mimeType, "", 0)] else []
  {
    r := newImages;
    if IsImageType(file.mimeType) {
      r := r + [ImageEntry(freshId(|newImages|), file.name, file.mimeType, "", 0)];
    }
  }

  /** One more file chosen: an entry for it is appended when it is an image. */
  lemma NewEntriesStep(fs: seq<File>, i: nat, freshId: nat -> string)
    requires i < |fs|
    ensures var prev := NewEntries(fs[..i], freshId);
      NewEntries(fs[..i + 1], freshId)
      == prev + if IsImageType(fs[i].mimeType) then [ImageEntry(freshId(|prev|), fs[i].name, fs[i].mimeType, "", 0)] else []
  {
    assert fs[..i + 1][..i] == fs[..i];
  }

  /** Adding files keeps the list and its order, and keeps the ids distinct
      when the generated ids are distinct and new. */
  lemma HandleFileChangeKeepsList(images: seq<ImageEntry>, files: seq<File>, freshId: nat -> string)
    requires DistinctIds(images)
    requires forall a, b :: 0 <= a < b ==> freshId(a) != freshId(b)
    requires forall a: nat :: freshId(a) !in Ids(images)
    ensures DistinctIds(images + NewEntries(files, freshId))
    ensures |images + NewEntries(files, freshId)| == |images| + |ImageFiles(files)|
    ensures (images + NewEntries(files, freshId))[..|images|] == images
  {
    var r := images + NewEntries(files, freshId);
    NewEntriesAt(files, freshId);
    forall i, j | 0 <= i < j < |r| ensures r[i].id != r[j].id {
      if j >= |images| {
        assert r[j].id == freshId(j - |images|);
        if i >= |images| {
          assert r[i].id == freshId(i - |images|);
        } else {
          assert r[i].id in Ids(images);
        }
      }
    }
    assert r[..|images|] == images;
  }

  // ---------------------------------------------------------------------------
  // Rotation
  // ---------------------------------------------------------------------------

  /** `(rotation + 90) % 360`, with JavaScript's remainder. */
  function RotateRight(rotation: int): (r: int)
    ensures rotation >= -90 ==> 0 <= r < 360
  {
    JsRem(rotation + 90, 360)
  }

  /** `(rotation - 90 + 360) % 360`, with JavaScript's remainder. */
  function RotateLeft(rotation: int): (r: int)
    ensures rotation >= -270 ==> 0 <= r < 360
  {
    JsRem(rotation - 90 + 360, 360)
  }

  /** On the rotations the component produces (0 up to 359), the two buttons
      undo each other and four quarter turns come back to the start. */
  lemma RotationInverses(rotation: int)
    requires 0 <= rotation < 360
    ensures RotateLeft(RotateRight(rotation)) == rotation
    ensures RotateRight(RotateLeft(rotation)) == rotation
    ensures RotateRight(RotateRight(RotateRight(RotateRight(rotation)))) == rotation
    ensures RotateLeft(RotateLeft(RotateLeft(RotateLeft(rotation)))) == rotation
  {
    RightValue(rotation);
    LeftValue(rotation);
    LeftValue(RotateRight(rotation));
    RightValue(RotateLeft(rotation));
    var r1 := RotateRight(rotation);
    RightValue(r1);
    var r2 := RotateRight(r1);
    RightValue(r2);
    var r3 := RotateRight(r2);
    RightValue(r3);
    var l1 := RotateLeft(rotation);
    LeftValue(l1);
    var l2 := RotateLeft(l1);
    LeftValue(l2);
    var l3 := RotateLeft(l2);
    LeftValue(l3);
  }

  /** A right turn of an angle between 0 and 359 adds 90 and wraps at 360. */
  lemma RightValue(rotation: int)
    requires 0 <= rotation < 360
    ensures RotateRight(rotation) == if rotation < 270 then rotation + 90 else rotation - 270
  {
    if rotation >= 270 {
      assert rotation + 90 == 360 + (rotation - 270);
    }
  }

  /** A left turn of an angle between 0 and 359 subtracts 90 and wraps at 0. */
  lemma LeftValue(rotation: int)
    requires 0 <= rotation < 360
    ensures RotateLeft(rotation) == if rotation >= 90 then rotation - 90 else rotation + 270
  {
    if rotation >= 90 {
      assert rotation - 90 + 360 == 360 + (rotation - 90);
    }
  }

  /** The four quarter turns are closed under both buttons. */
  lemma QuarterTurnsClosed(rotation: int)
    requires PdfWithFooter.QuarterTurn(rotation)
    ensures PdfWithFooter.QuarterTurn(RotateRight(rotation))
    ensures PdfWithFooter.QuarterTurn(RotateLeft(rotation))
  {
  }

  function NewRotation(rotation: int, right: bool): int
  {
    if right then RotateRight(rotation) else RotateLeft(rotation)
  }

  /** `rotateImage(id, direction)`: every entry with the id is turned by a
      quarter; nothing else about any entry changes. */
  function RotateImage(images: seq<ImageEntry>, id: string, right: bool): (r: seq<ImageEntry>)
    ensures |r| == |images|
    ensures forall k :: 0 <= k < |r| ==>
      r[k].id == images[k].id && r[k].caption == images[k].caption &&
      r[k].fileName == images[k].fileName && r[k].fileType == images[k].fileType
    ensures forall k :: 0 <= k < |r| && images[k].id != id ==> r[k] == images[k]
    ensures forall k :: 0 <= k < |r| && images[k].id == id ==> r[k].rotation == NewRotation(images[k].rotation, right)
  {
    seq(|images|, k requires 0 <= k < |images| =>
      if images[k].id == id then images[k].(rotation := NewRotation(images[k].rotation, right)) else images[k])
  }

  predicate RotationsInRange(images: seq<ImageEntry>)
  {
    forall k :: 0 <= k < |images| ==> 0 <= images[k].rotation < 360
  }

  predicate AllQuarterTurns(images: seq<ImageEntry>)
  {
    forall k :: 0 <= k < |images| ==> PdfWithFooter.QuarterTurn(images[k].rotation)
  }

  /** Turning right and then left gives the list back. */
  lemma RotateRightThenLeft(images: seq<ImageEntry>, id: string)
    requires RotationsInRange(images)
    ensures RotateImage(RotateImage(images, id, true), id, false) == images
  {
    var r := RotateImage(RotateImage(images, id, true), id, false);
    forall k | 0 <= k < |images| ensures r[k] == images[k] {
      RotationInverses(images[k].rotation);
    }
  }

  /** The rotations stay quarter turns, so every photo gets a drawing origin in the PDF. */
  lemma RotateImageKeepsQuarterTurns(images: seq<ImageEntry>, id: string, right: bool)
    requires AllQuarterTurns(images)
    ensures AllQuarterTurns(RotateImage(images, id, right))
  {
    var r := RotateImage(images, id, right);
    forall k | 0 <= k < |r| ensures PdfWithFooter.QuarterTurn(r[k].rotation) {
      QuarterTurnsClosed(images[k].rotation);
    }
  }

  // ---------------------------------------------------------------------------
  // Captions and removal
  // ---------------------------------------------------------------------------

  /** `updateCaption(id, caption)`: the entries with the id take the new caption. */
  function UpdateCaption(images: seq<ImageEntry>, id: string, caption: string): (r: seq<ImageEntry>)
    ensures |r| == |images|
    ensures forall k :: 0 <= k < |r| ==> r[k].id == images[k].id && r[k].rotation == images[k].rotation
    ensures forall k :: 0 <= k < |r| && images[k].id != id ==> r[k] == images[k]
    ensures forall k :: 0 <= k < |r| && images[k].id == id ==> r[k].caption == caption
  {
    seq(|images|, k requires 0 <= k < |images| => if images[k].id == id then images[k].(caption := caption) else images[k])
  }

  /** The last caption typed is the one kept. */
  lemma UpdateCaptionLastWins(images: seq<ImageEntry>, id: string, a: string, b: string)
    ensures UpdateCaption(UpdateCaption(images, id, a), id, b) == UpdateCaption(images, id, b)
  {
    var l := UpdateCaption(UpdateCaption(images, id, a), id, b);
    var r := UpdateCaption(images, id, b);
    assert forall k :: 0 <= k < |l| ==> l[k] == r[k];
  }

  /** `images.filter(img => img.id !== id)`. */
  function RemoveImage(images: seq<ImageEntry>, id: string): (r: seq<ImageEntry>)
    ensures |r| <= |images|
  {
    if images == [] then []
    else (if images[0].id != id then [images[0]] else []) + RemoveImage(images[1..], id)
  }

  /** `images.findIndex(img => img.id === id)`: the first position holding the id, or -1. */
  function FindIndex(images: seq<ImageEntry>, id: string): (i: int)
    ensures -1 <= i < |images|
    ensures i == -1 <==> forall k :: 0 <= k < |images| ==> images[k].id != id
    ensures i >= 0 ==> images[i].id == id && forall k :: 0 <= k < i ==> images[k].id != id
  {
    if images == [] then -1
    else if images[0].id == id then 0
    else
      var j := FindIndex(images[1..], id);
      if j == -1 then -1 else j + 1
  }

  /** The entries left are exactly those whose id differs. */
  lemma {:induction false} RemoveImageMembers(images: seq<ImageEntry>, id: string)
    ensures forall e :: e in RemoveImage(images, id) <==> e in images && e.id != id
  {
    if images != [] {
      RemoveImageMembers(images[1..], id);
      assert images == [images[0]] + images[1..];
    }
  }

  /** Removing an id no entry has changes nothing. */
  lemma {:induction false} RemoveMissing(images: seq<ImageEntry>, id: string)
    requires forall k :: 0 <= k < |images| ==> images[k].id != id
    ensures RemoveImage(images, id) == images
  {
    if images != [] {
      assert images[0].id != id;
      RemoveMissing(images[1..], id);
      assert RemoveImage(images, id) == [images[0]] + images[1..];
    }
  }

  /** With distinct ids, removing drops exactly the one entry that has the
      id and keeps the others in order; a missing id changes nothing. */
  lemma {:induction false} RemoveImageExact(images: seq<ImageEntry>, id: string)
    requires DistinctIds(images)
    ensures var i := FindIndex(images, id);
      RemoveImage(images, id) == if i == -1 then images else images[..i] + images[i + 1..]
  {
    if images != [] {
      var tail := images[1..];
      if images[0].id == id {
        forall k | 0 <= k < |tail| ensures tail[k].id != id {
          assert images[0].id != images[k + 1].id;
        }
        RemoveMissing(tail, id);
        assert RemoveImage(images, id) == [] + RemoveImage(tail, id);
      } else {
        assert DistinctIds(tail) by {
          forall a, b | 0 <= a < b < |tail| ensures tail[a].id != tail[b].id {
            assert images[a + 1].id != images[b + 1].id;
          }
        }
        RemoveImageExact(tail, id);
        RemoveAfterHead(images, id);
      }
    }
  }

  /** The step of `RemoveImageExact` when the first entry is kept. */
  lemma RemoveAfterHead(images: seq<ImageEntry>, id: string)
    requires images != [] && images[0].id != id
    requires var j := FindIndex(images[1..], id);
      RemoveImage(images[1..], id) == if j == -1 then images[1..] else images[1..][..j] + images[1..][j + 1..]
    ensures var i := FindIndex(images, id);
      RemoveImage(images, id) == if i == -1 then images else images[..i] + images[i + 1..]
  {
    var tail := images[1..];
    var j := FindIndex(tail, id);
    HeadKept(images, id);
    if j == -1 {
      assert [images[0]] + tail == images;
    } else {
      KeepHead(images, j);
    }
  }

  /** A first entry with another id is kept, and the search goes on past it. */
  lemma HeadKept(images: seq<ImageEntry>, id: string)
    requires images != [] && images[0].id != id
    ensures RemoveImage(images, id) == [images[0]] + RemoveImage(images[1..], id)
    ensures var j := FindIndex(images[1..], id);
      FindIndex(images, id) == if j == -1 then -1 else j + 1
  {
  }

  lemma KeepHead(images: seq<ImageEntry>, j: nat)
    requires j + 1 < |images|
    ensures [images[0]] + (images[1..][..j] + images[1..][j + 1..]) == images[..j + 1] + images[j + 2..]
  {
    assert images[..j + 1] == [images[0]] + images[1..][..j];
    assert images[j + 2..] == images[1..][j + 1..];
  }

  // ---------------------------------------------------------------------------
  // Reordering
  // ---------------------------------------------------------------------------

  /** Exchanges the entries at `i` and `j`. */
  function Swap(images: seq<ImageEntry>, i: nat, j: nat): (r: seq<ImageEntry>)
    requires i < |images| && j < |images|
    ensures |r| == |images| && r[i] == images[j] && r[j] == images[i]
    ensures forall k :: 0 <= k < |r| && k != i && k != j ==> r[k] == images[k]
  {
    images[i := images[j]][j := images[i]]
  }

  /** What `moveImage(id, up)` hands back: the entry with the id exchanged
      with its upper (or lower) neighbour; the list itself when the id is
      missing or the entry is already first (last). */
  function Moved(images: seq<ImageEntry>, id: string, up: bool): seq<ImageEntry>
  {
    var i := FindIndex(images, id);
    if i == -1 then images
    else
      var n := if up then i - 1 else i + 1;
      if n < 0 || n >= |images| then images else Swap(images, i, n)
  }

  /** A move neither loses nor duplicates an entry: the list handed back is
      a permutation of the one given. */
  lemma MovedPermutes(images: seq<ImageEntry>, id: string, up: bool)
    ensures multiset(Moved(images, id, up)) == multiset(images)
  {
    var i := FindIndex(images, id);
    var n := if up then i - 1 else i + 1;
    if i != -1 && 0 <= n < |images| {
      SwapPermutes(images, i, n);
    }
  }

  lemma SwapPermutes(images: seq<ImageEntry>, i: nat, j: nat)
    requires i < |images| && j < |images|
    ensures multiset(Swap(images, i, j)) == multiset(images)
  {
    var once := images[i := images[j]];
    assert multiset(once) == multiset(images) - multiset{images[i]} + multiset{images[j]};
    assert multiset(once[j := images[i]]) == multiset(once) - multiset{once[j]} + multiset{images[i]};
  }

  /** `moveImage(id, direction)`: copies the list into a fresh array and
      exchanges the two entries in it. */
  method MoveImage(images: seq<ImageEntry>, id: string, up: bool) returns (r: seq<ImageEntry>)
    ensures r == Moved(images, id, up)
  {
    var currentIndex := FindIndex(images, id);
    if currentIndex == -1 {
      return images;
    }
    var newIndex := if up then currentIndex - 1 else currentIndex + 1;
    if newIndex < 0 || newIndex >= |images| {
      return images;
    }
    var a := new ImageEntry[|images|](k requires 0 <= k < |images| => images[k]);
    a[currentIndex], a[newIndex] := a[newIndex], a[currentIndex];
    r := a[..];
  }

  /** A move changes nothing for a missing id, for the first entry moved up
      and for the last entry moved down; otherwise the entry lands on the
      neighbouring position with its caption and rotation. */
  lemma MovedCases(images: seq<ImageEntry>, id: string, up: bool)
    ensures FindIndex(images, id) == -1 ==> Moved(images, id, up) == images
    ensures up && FindIndex(images, id) == 0 ==> Moved(images, id, up) == images
    ensures !up && FindIndex(images, id) == |images| - 1 ==> Moved(images, id, up) == images
    ensures up && FindIndex(images, id) > 0 ==>
      Moved(images, id, up)[FindIndex(images, id) - 1] == images[FindIndex(images, id)]
    ensures !up && 0 <= FindIndex(images, id) < |images| - 1 ==>
      Moved(images, id, up)[FindIndex(images, id) + 1] == images[FindIndex(images, id)]
  {
  }

  /** With distinct ids, moving an entry up and then down gives the list
      back, provided it was not already first. */
  lemma MoveUpThenDown(images: seq<ImageEntry>, id: string)
    requires DistinctIds(images)
    requires FindIndex(images, id) > 0
    ensures Moved(Moved(images, id, true), id, false) == images
  {
    var i := FindIndex(images, id);
    var m := Swap(images, i, i - 1);
    calc {
      Moved(Moved(images, id, true), id, false);
      Moved(m, id, false);
      { IndexAfterUp(images, id, i); }
      Swap(m, i - 1, i);
      { SwapBack(images, i, i - 1); }
      images;
    }
  }

  /** After a move up the entry is found one position higher. */
  lemma IndexAfterUp(images: seq<ImageEntry>, id: string, i: nat)
    requires 0 < i && FindIndex(images, id) == i
    ensures FindIndex(Swap(images, i, i - 1), id) == i - 1
  {
    var m := Swap(images, i, i - 1);
    forall k | 0 <= k < i - 1 ensures m[k].id != id {
      assert m[k] == images[k];
    }
    FirstIndexIs(m, id, i - 1);
  }

  /** After a move down the entry is found one position lower, the entry it
      passed having another id. */
  lemma IndexAfterDown(images: seq<ImageEntry>, id: string, i: nat)
    requires DistinctIds(images)
    requires i + 1 < |images| && FindIndex(images, id) == i
    ensures FindIndex(Swap(images, i, i + 1), id) == i + 1
  {
    var m := Swap(images, i, i + 1);
    forall k | 0 <= k < i + 1 ensures m[k].id != id {
      if k == i {
        assert images[i + 1].id != images[i].id;
      }
    }
    FirstIndexIs(m, id, i + 1);
  }

  /** Exchanging the same two entries again restores the list. */
  lemma SwapBack(images: seq<ImageEntry>, i: nat, j: nat)
    requires i < |images| && j < |images|
    ensures Swap(Swap(images, i, j), j, i) == images
  {
    var back := Swap(Swap(images, i, j), j, i);
    assert forall k :: 0 <= k < |images| ==> back[k] == images[k];
  }

  /** With distinct ids, moving an entry down and then up gives the list
      back, provided it was not already last. */
  lemma MoveDownThenUp(images: seq<ImageEntry>, id: string)
    requires DistinctIds(images)
    requires 0 <= FindIndex(images, id) < |images| - 1
    ensures Moved(Moved(images, id, false), id, true) == images
  {
    var i := FindIndex(images, id);
    var m := Swap(images, i, i + 1);
    calc {
      Moved(Moved(images, id, false), id, true);
      Moved(m, id, true);
      { IndexAfterDown(images, id, i); }
      Swap(m, i + 1, i);
      { SwapBack(images, i, i + 1); }
      images;
    }
  }

  /** `FindIndex` finds the first position holding the id. */
  lemma FirstIndexIs(images: seq<ImageEntry>, id: string, i: nat)
    requires i < |images| && images[i].id == id
    requires forall k :: 0 <= k < i ==> images[k].id != id
    ensures FindIndex(images, id) == i
  {
  }

  // ---------------------------------------------------------------------------
  // Texts shown by the component
  // ---------------------------------------------------------------------------

  /** The hint under the caption box: the figure text the PDF will print, in quotes. */
  function PreviewText(index: nat, caption: string): (t: string)
  {
    if caption != "" then "Nel PDF: \"Figura " + NatToString(index + 1) + " - " + caption + "\""
    else "Nel PDF: \"Figura " + NatToString(index + 1) + "\""
  }

  /** The hint quotes exactly the Italian caption the PDF hook prints for the
      photo at the same position. */
  lemma PreviewMatchesPdf(index: nat, caption: string)
    ensures PreviewText(index, caption)
      == "Nel PDF: \"" + PdfWithFooter.CaptionText(index, caption, Translation.It) + "\""
  {
  }

  /** `Math.ceil(images.length / 2)`: the extra pages announced in the summary. */
  function ExtraPages(n: nat): (p: nat)
    ensures 2 * p >= n && (p == 0 || 2 * p <= n + 1)
  {
    CeilDiv(n, 2)
  }

  /** The announced number of extra pages is the number of appendix pages
      the PDF hook adds for the same photos. */
  lemma ExtraPagesMatchAppendix(photos: seq<PdfWithFooter.Photo>, mainPages: nat, language: Translation.Language,
                                h: HeaderSelection.HeaderType)
    ensures ExtraPages(|photos|) == |PdfWithFooter.AppendixPages(photos, mainPages, language, h)|
  {
  }

  /** The summary line with its three inflected words filled in. */
  function SummaryLine(n: nat, images: string, loaded: string, pages: string): string
  {
    NatToString(n) + " " + images + " " + loaded + " • " + NatToString(ExtraPages(n)) + " " + pages + " aggiuntive nel PDF"
  }

  /** The summary line as written: the plural endings are appended to the
      singular words, and nothing is shown for an empty list. */
  function SummaryText(n: nat): (t: Option<string>)
    ensures t.Some? <==> n > 0
  {
    if n == 0 then None
    else
      Some(SummaryLine(n, "immagine" + (if n != 1 then "i" else ""), "caricata" + (if n != 1 then "e" else ""),
        "pagina" + (if ExtraPages(n) != 1 then "e" else "")))
  }

  /** Two photos give the words "immaginei" and "caricatae" (and "pagina"
      for the one extra page). */
  lemma SummaryTextTwoPhotos()
    ensures SummaryText(2) == Some(SummaryLine(2, "immaginei", "caricatae", "pagina"))
  {
    assert ExtraPages(2) == 1;
    assert "immagine" + "i" == "immaginei";
    assert "caricata" + "e" == "caricatae";
    assert "pagina" + "" == "pagina";
  }

  /** A word ending in `-a` or `-e`, put in the plural by replacing its last
      letter when the count is not one. */
  function Inflect(stem: string, singular: char, plural: char, count: nat): (w: string)
    ensures |w| == |stem| + 1 && w[..|stem|] == stem
    ensures w[|stem|] == if count == 1 then singular else plural
  {
    stem + [if count == 1 then singular else plural]
  }

  /** The summary line with the Italian plurals the component evidently means. */
  function SummaryTextIntended(n: nat): (t: Option<string>)
    ensures t.Some? <==> n > 0
  {
    if n == 0 then None
    else
      Some(SummaryLine(n, Inflect("immagin", 'e', 'i', n), Inflect("caricat", 'a', 'e', n),
        Inflect("pagin", 'a', 'e', ExtraPages(n))))
  }

  /** The intended line agrees with the written one for a single photo. */
  lemma SummaryTextIntendedSingle()
    ensures SummaryTextIntended(1) == SummaryText(1)
  {
    assert ExtraPages(1) == 1;
    assert Inflect("immagin", 'e', 'i', 1) == "immagine" == "immagine" + "";
    assert Inflect("caricat", 'a', 'e', 1) == "caricata" == "caricata" + "";
    assert Inflect("pagin", 'a', 'e', 1) == "pagina" == "pagina" + "";
  }

  /** For more than one photo the intended line says "immagini caricate",
      and "pagine" once there is more than one extra page. */
  lemma SummaryTextIntendedPlural(n: nat)
    requires n > 1
    ensures SummaryTextIntended(n) == Some(SummaryLine(n, "immagini", "caricate",
      if n > 2 then "pagine" else "pagina"))
  {
    assert Inflect("immagin", 'e', 'i', n) == "immagini";
    assert Inflect("caricat", 'a', 'e', n) == "caricate";
    if n > 2 {
      assert ExtraPages(n) != 1;
      assert Inflect("pagin", 'a', 'e', ExtraPages(n)) == "pagine";
    } else {
      assert ExtraPages(n) == 1;
      assert Inflect("pagin", 'a', 'e', ExtraPages(n)) == "pagina";
    }
  }
}
