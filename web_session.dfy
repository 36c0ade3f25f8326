/**
  The web front end's three routes over one browser session: `index` takes an
  upload and records its stored name, `process` records the name of the
  processed copy, and `result` shows it. The session is a string map; the
  flashed messages, which the framework keeps in the session too, are a
  separate list. The uuid of an upload is a parameter, and the file writes are
  not modelled.
*/
module WebSession {
  import opened FileNames

  const UploadedKey: string := "uploaded_file"
  const PreviewKey: string := "uploaded_file_preview"
  const ProcessedKey: string := "processed_file"
  /** The message flashed for a refused upload ("only JPG and PNG images may be uploaded"). */
  const RejectMessage: string := "只允许上传JPG和PNG格式的图片文件"
  /** Where the processed images are served from. */
  const ImagesUrl: string := "/static/images/"

  /** The `file` part of an upload form, if the request has one. */
  datatype Upload = NoFilePart | FilePart(filename: string)

  datatype Request = Get | Post(upload: Upload)

  datatype Route = IndexRoute | ResultRoute

  datatype Response =
    | RenderIndex                    // the upload page
    | RedirectBack                   // redirect to the request's own URL
    | RedirectTo(route: Route)
    | RenderResult(imageUrl: string) // the result page showing this image

  class Session {
    var store: map<string, string>
    var flashes: seq<string>

    /**
      What every route keeps true: the preview name is present with the
      uploaded name and is read from it, and a processed name is a
      "processed_" name.
    */
    ghost predicate Valid()
      reads this
    {
      && (UploadedKey in store <==> PreviewKey in store)
      && (UploadedKey in store ==> store[PreviewKey] == PreviewName(store[UploadedKey]))
      && (ProcessedKey in store ==> |store[ProcessedKey]| >= 10 && store[ProcessedKey][..10] == "processed_")
    }

    /** A new browser session: empty. */
    constructor ()
      ensures Valid()
      ensures store == map[] && flashes == []
    {
      store := map[];
      flashes := [];
    }

    /**
      `index`. A GET renders the page. A POST without a file part or with an
      empty file name redirects back and changes nothing; a refused name also
      flashes the message; an allowed name is stored under `<hex>_<name>`
      with its preview name, and redirects to the index.
    */
    method Index(req: Request, hex: string) returns (resp: Response)
      requires Valid() && IsUuidHex(hex)
      modifies this
      ensures Valid()
      ensures req.Get? ==> resp == RenderIndex && store == old(store) && flashes == old(flashes)
      ensures req == Post(NoFilePart) || req == Post(FilePart("")) ==>
                resp == RedirectBack && store == old(store) && flashes == old(flashes)
      ensures req.Post? && req.upload.FilePart? && req.upload.filename != "" && !AllowedFile(req.upload.filename) ==>
                resp == RedirectBack && store == old(store) && flashes == old(flashes) + [RejectMessage]
      ensures req.Post? && req.upload.FilePart? && req.upload.filename != "" && AllowedFile(req.upload.filename) ==>
                && resp == RedirectTo(IndexRoute)
                && store == old(store)[UploadedKey := StoredName(hex, req.upload.filename)]
                                      [PreviewKey := req.upload.filename]
                && flashes == old(flashes)
    {
      if req.Get? {
        return RenderIndex;
      }
      if req.upload.NoFilePart? {
        return RedirectBack;
      }
      var filename := req.upload.filename;
      if filename == "" {
        return RedirectBack;
      }
      if AllowedFile(filename) {
        store := store[UploadedKey := StoredName(hex, filename)];
        if UploadedKey in store {
          store := store[PreviewKey := PreviewName(store[UploadedKey])];
        }
        PreviewRecoversName(hex, filename);
        resp := RedirectTo(IndexRoute);
      } else {
        flashes := flashes + [RejectMessage];
        resp := RedirectBack;
      }
    }

    /** `process`: without an upload, back to the index; otherwise record the processed name and go to the result. */
    method Process() returns (resp: Response)
      requires Valid()
      modifies this
      ensures Valid()
      ensures UploadedKey !in old(store) ==> resp == RedirectTo(IndexRoute) && store == old(store)
      ensures UploadedKey in old(store) ==>
                resp == RedirectTo(ResultRoute)
                && store == old(store)[ProcessedKey := ProcessedName(old(store)[UploadedKey])]
      ensures flashes == old(flashes)
    {
      if UploadedKey !in store {
        return RedirectTo(IndexRoute);
      }
      var resultName := ProcessedName(store[UploadedKey]);
      store := store[ProcessedKey := resultName];
      resp := RedirectTo(ResultRoute);
    }

    /** `result`: the page for the processed image when there is one, otherwise back to the index. */
    method Result() returns (resp: Response)
      requires Valid()
      ensures resp.RenderResult? <==> ProcessedKey in store
      ensures ProcessedKey in store ==> resp.imageUrl == ImagesUrl + store[ProcessedKey]
      ensures ProcessedKey !in store ==> resp == RedirectTo(IndexRoute)
    {
      if ProcessedKey !in store {
        return RedirectTo(IndexRoute);
      }
      resp := RenderResult(ImagesUrl + store[ProcessedKey]);
    }
  }

  /**
    A fresh session that uploads an allowed file, processes it and asks for
    the result is shown `/static/images/processed_<hex>_<name>`; asking for the
    result first sends it back to the index.
  */
  method UploadProcessResult(filename: string, hex: string) returns (early: Response, shown: Response)
    requires filename != "" && AllowedFile(filename) && IsUuidHex(hex)
    ensures early == RedirectTo(IndexRoute)
    ensures shown == RenderResult(ImagesUrl + ProcessedName(StoredName(hex, filename)))
  {
    var s := new Session();
    early := s.Result();
    var r1 := s.Index(Post(FilePart(filename)), hex);
    var r2 := s.Process();
    shown := s.Result();
  }

  /** A refused upload leaves a fresh session without an upload, so processing goes back to the index. */
  method RefusedUploadCannotProcess(filename: string, hex: string) returns (flashed: seq<string>, resp: Response)
    requires filename != "" && !AllowedFile(filename) && IsUuidHex(hex)
    ensures flashed == [RejectMessage]
    ensures resp == RedirectTo(IndexRoute)
  {
    var s := new Session();
    var r1 := s.Index(Post(FilePart(filename)), hex);
    resp := s.Process();
    flashed := s.flashes;
  }
}
