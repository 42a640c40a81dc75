/**
 * Attachments: the test that decides whether a message renders as an image
 * (app.js:1224-1226), the loader it gets (app.js:1228-1254), and the
 * msgtype an upload is sent with (app.js:2170-2190).
 */
module Media {
  import opened Text

  /** The part of a message's `content` these rules read; "" stands for absent. */
  datatype Content = Content(
    body: string,
    msgtype: string,
    mimetype: string,  // content.info.mimetype
    url: string,       // content.url
    fileUrl: string)   // content.file.url (encrypted attachments)

  datatype Attachment = NoAttachment | ImageLoader(mxc: string) | FileLoader(mxc: string)

  const ImageExtensions: seq<string> := ["jpg", "jpeg", "png", "gif", "webp", "bmp", "svg"]

  /** `/\.(e1|e2|...)$/i` over ASCII: the lower-cased name ends with a dot and one of `exts`. */
  predicate HasExtension(name: string, exts: seq<string>) {
    exists k | 0 <= k < |exts| :: EndsWith(LowerAscii(name), "." + exts[k])
  }

  /** `/\.(e1|e2|...)$/` on a name that is already lower-cased. */
  predicate HasExtensionExact(name: string, exts: seq<string>) {
    exists k | 0 <= k < |exts| :: EndsWith(name, "." + exts[k])
  }

  predicate IsImage(c: Content) {
    c.msgtype == "m.image"
    || StartsWith(c.mimetype, "image/")
    || (c.body != "" && HasExtension(c.body, ImageExtensions))
  }

  /** The loader the message element gets: an image needs a URL, a file needs `m.file` and `url`. */
  function AttachmentOf(c: Content): (a: Attachment)
    ensures a.ImageLoader? <==> IsImage(c) && (c.url != "" || c.fileUrl != "")
    ensures a.FileLoader? <==> !(IsImage(c) && (c.url != "" || c.fileUrl != "")) && c.msgtype == "m.file" && c.url != ""
    ensures !a.NoAttachment? ==> a.mxc != ""
    ensures a.ImageLoader? ==> a.mxc == (if c.url != "" then c.url else c.fileUrl)
    ensures a.FileLoader? ==> a.mxc == c.url
  {
    if IsImage(c) && (c.url != "" || c.fileUrl != "") then
      ImageLoader(if c.url != "" then c.url else c.fileUrl)
    else if c.msgtype == "m.file" && c.url != "" then FileLoader(c.url)
    else NoAttachment
  }

  /** An upload of the given kind: its MIME type has the prefix, or its lower-cased name one of the extensions. */
  predicate UploadIs(fileType: string, fileName: string, mimePrefix: string, exts: seq<string>) {
    StartsWith(fileType, mimePrefix) || HasExtensionExact(LowerAscii(fileName), exts)
  }

  const UploadImageExtensions: seq<string> := ["jpg", "jpeg", "png", "gif", "webp"]
  const UploadVideoExtensions: seq<string> := ["mp4", "webm", "mov"]
  const UploadAudioExtensions: seq<string> := ["mp3", "wav", "ogg"]

  /**
   * The msgtype of an upload, from the browser's `file.type` and the
   * lower-cased `file.name`: image, then video, then audio, else file.
   */
  function UploadMsgtype(fileType: string, fileName: string): (t: string)
    ensures t in {"m.image", "m.video", "m.audio", "m.file"}
    ensures t == "m.image" <==> UploadIs(fileType, fileName, "image/", UploadImageExtensions)
    ensures t == "m.video" <==> (!UploadIs(fileType, fileName, "image/", UploadImageExtensions)
      && UploadIs(fileType, fileName, "video/", UploadVideoExtensions))
    ensures t == "m.audio" <==> (!UploadIs(fileType, fileName, "image/", UploadImageExtensions)
      && !UploadIs(fileType, fileName, "video/", UploadVideoExtensions)
      && UploadIs(fileType, fileName, "audio/", UploadAudioExtensions))
    ensures t == "m.file" <==> (!UploadIs(fileType, fileName, "image/", UploadImageExtensions)
      && !UploadIs(fileType, fileName, "video/", UploadVideoExtensions)
      && !UploadIs(fileType, fileName, "audio/", UploadAudioExtensions))
  {
    var name := LowerAscii(fileName);
    if StartsWith(fileType, "image/") || HasExtensionExact(name, UploadImageExtensions) then "m.image"
    else if StartsWith(fileType, "video/") || HasExtensionExact(name, UploadVideoExtensions) then "m.video"
    else if StartsWith(fileType, "audio/") || HasExtensionExact(name, UploadAudioExtensions) then "m.audio"
    else "m.file"
  }

  /** The content an upload is sent with (app.js:2181-2189). */
  function UploadContent(fileType: string, fileName: string, contentUri: string): Content {
    Content(fileName, UploadMsgtype(fileType, fileName), fileType, contentUri, "")
  }

  /**
   * Once the upload has a content URI, an uploaded image renders as an image
   * loader and any other file sent as `m.file` as a file link; a video or
   * audio upload gets no loader at all and shows only its file name.
   */
  lemma UploadRendersAs(fileType: string, fileName: string, contentUri: string)
    requires contentUri != ""
    ensures var c := UploadContent(fileType, fileName, contentUri);
      && (c.msgtype == "m.image" ==> AttachmentOf(c) == ImageLoader(contentUri))
      && (c.msgtype == "m.file" && !IsImage(c) ==> AttachmentOf(c) == FileLoader(contentUri))
      && (c.msgtype in {"m.video", "m.audio"} && !IsImage(c) ==> AttachmentOf(c) == NoAttachment)
  {
  }
}
