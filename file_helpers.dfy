/** src/utils/fileHelpers.js: which uploads the application accepts. A file
    is reduced to what the validators read of it: its MIME type (`file.type`,
    "" when the browser does not know it), its name and its size in bytes. */
module FileHelpers {
  import opened Results
  import opened Strings

  datatype FileInfo = FileInfo(mimeType: string, name: string, size: nat)

  /** `{ valid, error }`, with `error: null` as `None`. */
  datatype Validation = Validation(valid: bool, error: Option<string>)

  /** `SUPPORTED_TYPES.pdf` */
  const PdfTypes: seq<string> := ["application/pdf"]

  /** `SUPPORTED_TYPES.image` */
  const ImageTypes: seq<string> :=
    ["image/png", "image/jpeg", "image/jpg", "image/bmp", "image/tiff", "image/webp"]

  /** `MAX_FILE_SIZE`: 10 MB. */
  const MaxFileSize: nat := 10 * 1024 * 1024

  const NoFileMessage := "No file selected"

  /** isPDF */
  predicate IsPdf(f: FileInfo) {
    f.mimeType in PdfTypes || EndsWith(ToLower(f.name), ".pdf")
  }

  /** `/\.(png|jpe?g|bmp|tiff|webp)$/i.test(name)`: the name ends in one of
      six extensions, in any letter case (for these letters the `i` flag
      and `toLowerCase` agree). */
  predicate HasImageExtension(name: string) {
    var lower := ToLower(name);
    EndsWith(lower, ".png") || EndsWith(lower, ".jpg") || EndsWith(lower, ".jpeg")
    || EndsWith(lower, ".bmp") || EndsWith(lower, ".tiff") || EndsWith(lower, ".webp")
  }

  /** isImage */
  predicate IsImage(f: FileInfo) {
    f.mimeType in ImageTypes || HasImageExtension(f.name)
  }

  /** `file.type || file.name.split('.').pop()` */
  function TypeLabel(f: FileInfo): string {
    if f.mimeType != "" then f.mimeType else LastPart(f.name, '.')
  }

  function UnsupportedMessage(f: FileInfo): string {
    "Unsupported file type \"" + TypeLabel(f)
    + "\". Please upload a PDF or image file (PNG, JPG, BMP, TIFF, WebP)."
  }

  /** `(size / (1024 * 1024)).toFixed(1)` counted in tenths: the size in MB
      is a multiple of 2^-20, held exactly by a double, and `toFixed` picks
      the nearest tenth, the larger one on a tie. */
  function MbTenths(size: nat): nat {
    (20 * size + 1048576) / 2097152
  }

  /** The digits `toFixed(1)` prints for a number of tenths. */
  function TenthsText(t: nat): string {
    NatToString(t / 10) + "." + [DigitChar(t % 10)]
  }

  function OversizeMessage(size: nat): string {
    "File size (" + TenthsText(MbTenths(size)) + "MB) exceeds the 10MB limit. Please upload a smaller file."
  }

  /** validateFile, with `null`/`undefined` as `None`. */
  function ValidateFile(file: Option<FileInfo>): (r: Validation)
    ensures r.valid <==> r.error == None
    ensures r.valid <==>
      file.Some? && (IsPdf(file.value) || IsImage(file.value)) && file.value.size <= MaxFileSize
  {
    match file
    case None => Validation(false, Some(NoFileMessage))
    case Some(f) =>
      if !IsPdf(f) && !IsImage(f) then Validation(false, Some(UnsupportedMessage(f)))
      else if f.size > MaxFileSize then Validation(false, Some(OversizeMessage(f.size)))
      else Validation(true, None)
  }

  // ---------------------------------------------------------------------------
  // Properties

  /** A PDF is recognised by its MIME type or, in any letter case, by its
      name ending in ".pdf". */
  lemma {:induction false} PdfByTypeOrName(f: FileInfo)
    ensures IsPdf(f) <==> f.mimeType == "application/pdf" || EndsWith(ToLower(f.name), ".pdf")
  {}

  /** An image is recognised by one of the six MIME types or by one of the
      six endings. */
  lemma {:induction false} ImageByTypeOrName(f: FileInfo)
    ensures IsImage(f) <==>
      f.mimeType in {"image/png", "image/jpeg", "image/jpg", "image/bmp", "image/tiff", "image/webp"}
      || HasImageExtension(f.name)
  {}

  /** The letter case of the name does not matter. */
  lemma {:induction false} NameCaseIgnored(f: FileInfo)
    ensures IsPdf(f) <==> IsPdf(f.(name := ToLower(f.name)))
    ensures IsImage(f) <==> IsImage(f.(name := ToLower(f.name)))
  {
    ToLowerIdempotent(f.name);
  }

  lemma {:induction false} NoFileRejected()
    ensures ValidateFile(None) == Validation(false, Some("No file selected"))
  {}

  /** The type is checked before the size: a file of an unsupported type is
      reported as such, however large it is. */
  lemma {:induction false} TypeCheckedFirst(f: FileInfo)
    requires !IsPdf(f) && !IsImage(f)
    ensures ValidateFile(Some(f)) == Validation(false, Some(UnsupportedMessage(f)))
  {}

  /** A supported file over the limit is rejected with its size in MB. */
  lemma {:induction false} OversizeRejected(f: FileInfo)
    requires IsPdf(f) || IsImage(f)
    requires f.size > MaxFileSize
    ensures ValidateFile(Some(f)) == Validation(false, Some(OversizeMessage(f.size)))
  {}

  /** The limit itself is allowed, one byte more is not: the test is a strict
      `>`. */
  lemma {:induction false} SizeBoundary(f: FileInfo)
    requires IsPdf(f) || IsImage(f)
    ensures ValidateFile(Some(f.(size := 10485760))).valid
    ensures !ValidateFile(Some(f.(size := 10485761))).valid
  {}

  /** The message for an unsupported file names its MIME type or, when that
      is empty, the text after the last '.' of its name, or the whole name
      when it has none. */
  lemma {:induction false} UnsupportedLabel(f: FileInfo)
    ensures f.mimeType != "" ==> TypeLabel(f) == f.mimeType
    ensures f.mimeType == "" ==> AfterLastSep(f.name, '.', TypeLabel(f))
  {
    SplitLast(f.name, '.');
  }

  /** The printed figure is the size in MB to the nearest tenth, ties
      rounded up: |size / 2^20 - t / 10| <= 1/20. */
  lemma {:induction false} MbTenthsNearest(size: nat)
    ensures var t := MbTenths(size);
      (2 * t - 1) * 1048576 <= 20 * size < (2 * t + 1) * 1048576
  {}

  /** One byte over the limit still prints as 10.0 MB. */
  lemma {:induction false} JustOverLimitMessage()
    ensures OversizeMessage(10485761)
         == "File size (" + "10.0" + "MB) exceeds the 10MB limit. Please upload a smaller file."
  {
    assert MbTenths(10485761) == 100;
    assert NatToString(10) == "10" by {
      assert NatToString(1) == "1";
    }
  }
}
