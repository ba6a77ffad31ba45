/** The HTTP side of the server (`callback_http`): which file under ./static a
    request path names, and which MIME type it is served with. */
module Http {
  import opened CText

  /** STATIC_FILE_DIR. */
  const StaticDir: string := "./static"

  /** What `callback_http` hands to the file server. */
  datatype FileRequest = FileRequest(filePath: string, mimeType: string)

  /** The path "/" stands for "/index.html"; every other path is taken as it is. */
  function RequestedFile(path: string): string {
    if |path| == 1 && path[0] == '/' then "/index.html" else path
  }

  /** ".css" wins over ".js", which is found anywhere in the name (".json" too);
      everything else is HTML. */
  function MimeType(file: string): string {
    if Contains(file, ".css") then "text/css"
    else if Contains(file, ".js") then "application/javascript"
    else "text/html"
  }

  /** `callback_http` on LWS_CALLBACK_HTTP: the file path is the directory and the
      requested file printed into a 256-byte buffer. */
  function HandleHttp(path: string): FileRequest {
    var file := RequestedFile(path);
    FileRequest(Truncate(StaticDir + file), MimeType(file))
  }

  /** The root is rewritten, nothing else is. */
  lemma RequestedFileRewritesRootOnly(path: string)
    ensures path == "/" ==> RequestedFile(path) == "/index.html"
    ensures path != "/" ==> RequestedFile(path) == path
  {
  }

  /** The file path is the static directory followed by the requested file, cut to
      255 characters; it is exact for any request of up to 247 characters. */
  lemma FilePathShape(path: string)
    ensures var p := HandleHttp(path).filePath;
            && |p| < BufferSize
            && p <= StaticDir + RequestedFile(path)
            && (|RequestedFile(path)| <= BufferSize - 1 - |StaticDir| ==> p == StaticDir + RequestedFile(path))
  {
  }

  /** The MIME type, stated through where the extensions occur. */
  lemma MimeTypeChoice(file: string)
    ensures MimeType(file) == "text/css" <==> Occurs(file, ".css")
    ensures MimeType(file) == "application/javascript" <==> !Occurs(file, ".css") && Occurs(file, ".js")
    ensures MimeType(file) == "text/html" <==> !Occurs(file, ".css") && !Occurs(file, ".js")
  {
    ContainsOccurs(file, ".css");
    ContainsOccurs(file, ".js");
  }

  /** A name containing ".json" is served as JavaScript unless it also contains ".css". */
  lemma JsonServedAsJavascript(file: string)
    requires Occurs(file, ".json") && !Occurs(file, ".css")
    ensures MimeType(file) == "application/javascript"
  {
    var i :| OccursAt(file, ".json", i);
    assert file[i..i + 3] == file[i..i + 5][..3];
    assert OccursAt(file, ".js", i);
    MimeTypeChoice(file);
  }

  /** The only '.' of "/index.html" is followed by 'h'. */
  lemma IndexHtmlExtension(pat: string)
    requires |pat| >= 2 && pat[0] == '.' && pat[1] != 'h'
    ensures !Occurs("/index.html", pat)
  {
  }

  /** The root request serves ./static/index.html as HTML. */
  lemma RootServesIndex()
    ensures HandleHttp("/").filePath == "./static/index.html"
    ensures HandleHttp("/").mimeType == "text/html"
  {
    assert RequestedFile("/") == "/index.html";
    RootFilePath();
    IndexHtmlExtension(".css");
    IndexHtmlExtension(".js");
    MimeTypeChoice("/index.html");
  }

  lemma RootFilePath()
    ensures Truncate(StaticDir + "/index.html") == "./static/index.html"
  {
  }
}
