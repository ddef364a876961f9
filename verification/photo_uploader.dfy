/**
 * The photo uploader: the limit on the number of photos, what the image
 * picker's answer leads to, where an upload is stored, and the photo list
 * as uploads and removals change it.
 */
module PhotoUploader {
  import opened Wrappers
  import opened Text
  import opened Lists

  /** `maxPhotos = 10`: the default applies when the prop is not given. */
  function MaxPhotos(prop: Option<int>): (r: int)
    ensures prop.None? ==> r == 10
    ensures prop.Some? ==> r == prop.value
  {
    match prop
    case None => 10
    case Some(m) => m
  }

  /** What pressing a picker button does before the picker opens. */
  datatype PickStart = LimitReached(message: string) | OpenPicker

  /** `handleImagePicker`'s guard: refuse, with a message, once the list holds `maxPhotos` photos. */
  function PickerGuard(photos: seq<string>, maxPhotos: int): (r: PickStart)
    ensures r.LimitReached? <==> |photos| >= maxPhotos
    ensures r.LimitReached? ==> r.message == "Máximo de " + IntToString(maxPhotos) + " fotos permitidas."
  {
    if |photos| >= maxPhotos then LimitReached("Máximo de " + IntToString(maxPhotos) + " fotos permitidas.")
    else OpenPicker
  }

  /** The camera and gallery buttons: shown while `photos.length < maxPhotos`. */
  function ShowButtons(photos: seq<string>, maxPhotos: int): (r: bool)
    ensures r <==> |photos| < maxPhotos
  {
    |photos| < maxPhotos
  }

  /** The buttons are shown exactly when pressing one would open the picker. */
  lemma ButtonsMatchGuard(photos: seq<string>, maxPhotos: int)
    ensures ShowButtons(photos, maxPhotos) <==> PickerGuard(photos, maxPhotos) == OpenPicker
  {
  }

  /** One asset of the picker's response. */
  datatype Asset = Asset(uri: Option<string>)

  /** The picker's response: cancellation, error code and message, and the picked assets. */
  datatype PickerResponse = PickerResponse(
    didCancel: bool,
    errorCode: Option<string>,
    errorMessage: Option<string>,
    assets: Option<seq<Asset>>)

  /**
   * What the picker callback does. `assets[0].uri` on an empty asset list
   * reads a property of `undefined` and throws (`CallbackThrows`).
   */
  datatype PickOutcome = Cancelled | ErrorAlert(message: string) | Upload(uri: string) | NoUpload | CallbackThrows

  function PickerCallback(response: PickerResponse): (r: PickOutcome)
    ensures response.didCancel ==> r == Cancelled
    ensures !response.didCancel && Truthy(response.errorCode) ==> r.ErrorAlert?
    ensures r.ErrorAlert? ==> r.message == if Truthy(response.errorMessage) then response.errorMessage.value
                                            else "Erro ao selecionar imagem"
    ensures r.Upload? <==> !response.didCancel && !Truthy(response.errorCode) && response.assets.Some?
                           && |response.assets.value| > 0 && Truthy(response.assets.value[0].uri)
    ensures r.Upload? ==> r.uri == response.assets.value[0].uri.value
  {
    if response.didCancel then Cancelled
    else if Truthy(response.errorCode) then
      ErrorAlert(if Truthy(response.errorMessage) then response.errorMessage.value else "Erro ao selecionar imagem")
    else if response.assets.None? then NoUpload
    else if |response.assets.value| == 0 then CallbackThrows
    else if Truthy(response.assets.value[0].uri) then Upload(response.assets.value[0].uri.value)
    else NoUpload
  }

  /** A response with an error code never uploads, whatever assets it carries. */
  lemma ErrorNeverUploads(response: PickerResponse)
    requires Truthy(response.errorCode)
    ensures !PickerCallback(response).Upload?
  {
  }

  /** The last piece of `uri.split(".")`. */
  function LastPiece(uri: string): string {
    Split(uri, '.')[|Split(uri, '.')| - 1]
  }

  /** `uri.split(".").pop() || "jpg"`. */
  function FileExt(uri: string): (r: string)
    ensures r != "" && '.' !in r
    ensures LastPiece(uri) != "" ==> r == LastPiece(uri)
    ensures LastPiece(uri) == "" ==> r == "jpg"
  {
    SplitPiecesFree(uri, '.');
    var last := LastPiece(uri);
    if last != "" then last else "jpg"
  }

  /**
   * The extension is the text after the last "." (the whole uri when it has
   * no "."), and falls back to "jpg" exactly when that text is empty: when
   * the uri is empty or ends with ".".
   */
  lemma FileExtSpec(uri: string)
    ensures '.' !in uri && uri != "" ==> FileExt(uri) == uri
    ensures '.' in uri && LastPiece(uri) != "" ==> EndsWith(uri, "." + FileExt(uri))
    ensures LastPiece(uri) == "" <==> uri == "" || uri[|uri| - 1] == '.'
  {
    SplitLast(uri, '.');
    SplitLastEmpty(uri, '.');
  }

  /** The extension is whatever non-empty, dot-free text follows the last ".". */
  lemma ExtensionAfterLastDot(name: string, ext: string)
    requires ext != "" && '.' !in ext
    ensures FileExt(name + "." + ext) == ext
  {
    SplitAfterLast(name, '.', ext);
  }

  /** A uri ending in "photo.png" gets the extension "png". */
  lemma PngExtension()
    ensures FileExt("photo.png") == "png"
  {
    assert "photo.png" == "photo" + "." + "png";
    ExtensionAfterLastDot("photo", "png");
  }

  /** `equipment/${Date.now()}-${random}.${fileExt}`, the clock and the random text given. */
  function StoragePath(uri: string, timestamp: nat, random: string): (r: string)
    ensures StartsWith(r, "equipment/")
    ensures EndsWith(r, "." + FileExt(uri))
  {
    var name, ext := NatToString(timestamp) + "-" + random, "." + FileExt(uri);
    AppendAffixes3("equipment/", name, ext);
    "equipment/" + name + ext
  }

  /** `image/${fileExt}`: the content type sent with the upload. */
  function ContentType(uri: string): (r: string)
    ensures StartsWith(r, "image/")
    ensures r[|"image/"|..] == FileExt(uri)
  {
    "image/" + FileExt(uri)
  }

  /** The photo list and the upload flag as the uploader changes them. */
  class Uploader {
    var photos: seq<string>
    var uploading: bool
    const maxPhotos: int

    constructor(initial: seq<string>, maxProp: Option<int>)
      ensures photos == initial && !uploading && maxPhotos == MaxPhotos(maxProp)
    {
      photos := initial;
      uploading := false;
      maxPhotos := MaxPhotos(maxProp);
    }

    /**
     * `handleUpload` once the upload has answered with `url` (None when it
     * failed): a truthy url is appended; the flag is set during the upload
     * and cleared at the end.
     */
    method HandleUpload(url: Option<string>)
      modifies this
      ensures Truthy(url) ==> photos == old(photos) + [url.value]
      ensures !Truthy(url) ==> photos == old(photos)
      ensures PickerGuard(old(photos), maxPhotos) == OpenPicker ==> |photos| <= maxPhotos
      ensures !uploading
    {
      uploading := true;
      if Truthy(url) {
        photos := photos + [url.value];
      }
      uploading := false;
    }

    /** `removePhoto(index)`: once the removal is confirmed, drop the photo at `index`. */
    method RemovePhoto(index: int, confirmed: bool)
      modifies this
      ensures confirmed ==> photos == RemoveIndex(old(photos), index)
      ensures !confirmed ==> photos == old(photos)
      ensures uploading == old(uploading)
    {
      if confirmed {
        photos := RemoveIndex(photos, index);
      }
    }
  }

  /** An upload started below the limit leaves the list at most at the limit. */
  lemma UploadStaysWithinLimit(photos: seq<string>, maxPhotos: int, url: string)
    requires PickerGuard(photos, maxPhotos) == OpenPicker
    ensures |photos + [url]| <= maxPhotos
  {
  }
}
