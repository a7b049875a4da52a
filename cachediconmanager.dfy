/** The icon manager of the GUI: icons cropped to their opaque box unless
    there is none, loaded once per file name, and forgotten when the icons
    are downloaded again. The download itself, the image files and the
    scaling are outside the model. */
module CachedIconManager {
  import opened Wrappers
  import opened IconManager

  /** What `_crop_alpha` does to an image: nothing, or cut a rectangle. */
  datatype Crop = Unchanged | Cut(region: Region)

  /** The crop for the margins: none when the opaque pixels do not span
      two columns and two rows (in particular when there are none), the
      rectangle from the margins otherwise. */
  function CropFor(b: Box): Crop {
    if b.minX >= b.maxX || b.minY >= b.maxY then Unchanged else Cut(CropRegion(b))
  }

  /** `_crop_alpha`: the margins of the opaque pixels, then the guard. */
  method CropAlpha(pixels: seq<Byte>, width: nat) returns (c: Crop)
    ensures c == CropFor(BoxOf(pixels, width * 4))
  {
    var b := OpaqueBox(pixels, width);
    if b.minX >= b.maxX || b.minY >= b.maxY {
      return Unchanged;
    }
    c := Cut(Region(b.minX + 1, b.minY + 1, b.maxX - b.minX, b.maxY - b.minY));
  }

  /** The opaque pixels lie in the first 1000 columns and rows, where the
      starting minima do not hide them. */
  predicate Small(pixels: seq<Byte>, rowLength: nat) {
    forall i :: 0 <= i < |pixels| && Opaque(pixels, rowLength, i) ==>
      PixelX(i, rowLength) < 1000 && Row(i, rowLength) < 1000
  }

  /** Two opaque pixels lie in different columns. */
  ghost predicate TwoColumns(pixels: seq<Byte>, rowLength: nat) {
    exists i, j :: 0 <= i < |pixels| && 0 <= j < |pixels| &&
      Opaque(pixels, rowLength, i) && Opaque(pixels, rowLength, j) && PixelX(i, rowLength) < PixelX(j, rowLength)
  }

  /** Two opaque pixels lie in different rows. */
  ghost predicate TwoRows(pixels: seq<Byte>, rowLength: nat) {
    exists i, j :: 0 <= i < |pixels| && 0 <= j < |pixels| &&
      Opaque(pixels, rowLength, i) && Opaque(pixels, rowLength, j) && Row(i, rowLength) < Row(j, rowLength)
  }

  /** An image is cut when its opaque pixels span two columns and two
      rows, and (for an image whose opaque pixels lie within the first 1000
      columns and rows) only then; an image with no opaque pixel is left as
      it is. */
  lemma CropForCuts(pixels: seq<Byte>, rowLength: nat)
    ensures (forall i :: 0 <= i < |pixels| ==> !Opaque(pixels, rowLength, i)) ==>
      CropFor(BoxOf(pixels, rowLength)) == Unchanged
    ensures TwoColumns(pixels, rowLength) && TwoRows(pixels, rowLength) ==>
      CropFor(BoxOf(pixels, rowLength)).Cut?
    ensures CropFor(BoxOf(pixels, rowLength)).Cut? && Small(pixels, rowLength) ==>
      TwoColumns(pixels, rowLength) && TwoRows(pixels, rowLength)
  {
    BoxBounds(pixels, rowLength);
    var xLow, yLow, xHigh, yHigh := BoxAttained(pixels, rowLength);
    var b := BoxOf(pixels, rowLength);
    if CropFor(b).Cut? && Small(pixels, rowLength) {
      assert Opaque(pixels, rowLength, xHigh) && PixelX(xLow, rowLength) < PixelX(xHigh, rowLength);
      assert Opaque(pixels, rowLength, yHigh) && Row(yLow, rowLength) < Row(yHigh, rowLength);
    }
  }

  /** A cut rectangle has a positive width and height and ends at the
      greatest opaque column and row. */
  lemma CutRegion(pixels: seq<Byte>, rowLength: nat)
    ensures CropFor(BoxOf(pixels, rowLength)).Cut? ==>
      var r := CropFor(BoxOf(pixels, rowLength)).region;
      r.width > 0 && r.height > 0 &&
      r.x + r.width - 1 == BoxOf(pixels, rowLength).maxX && r.y + r.height - 1 == BoxOf(pixels, rowLength).maxY
  {
  }

  /** The manager: the icons loaded so far, by file name. */
  class CachedIconManager<Icon> {
    var cache: map<string, Option<Icon>>

    constructor ()
      ensures cache == map[]
    {
      cache := map[];
    }

    /** `_get_icon`: none for an empty name; the kept icon when the file
        was asked for before; otherwise the load's result, kept. */
    method GetIcon(file: string, size: nat, load: (string, nat) -> Option<Icon>) returns (r: Option<Icon>)
      modifies this
      ensures cache == Remember(old(cache), file, size, load)
      ensures r == Lookup(cache, file)
    {
      if file == "" {
        return None;
      }
      if file in cache {
        return cache[file];
      }
      r := load(file, size);
      cache := cache[file := r];
    }

    /** `download_icons`: the cache is emptied first, so every icon is
        loaded afresh after the download. */
    method DownloadIcons()
      modifies this
      ensures cache == map[]
    {
      cache := map[];
    }
  }
}
