/** `downloadFile`: fetch a URL, name the file from its Content-Disposition
    header or its URL, copy the body's chunks into a buffer of the announced
    length, and optionally save it and return it. The response, the URL's
    path name and the files on disk are parameters; the progress bar is left
    out. */
module DownloadFile {
  import opened Wrappers
  import opened JsString
  import UnixMessage

  type byte = UnixMessage.byte

  // ---- the file name ----

  const Unknown := "unknown"

  /** The first index from `from` on whose character is one of `stops`, or
      the end. */
  function StopAt(s: string, from: nat, stops: set<char>): (k: nat)
    requires from <= |s|
    ensures from <= k <= |s|
    ensures forall j :: from <= j < k ==> s[j] !in stops
    ensures k < |s| ==> s[k] in stops
    decreases |s| - from
  {
    if from == |s| || s[from] in stops then from else StopAt(s, from + 1, stops)
  }

  /** The characters the regular-expression `.` does not match. */
  const LineTerminators: set<char> := {'\n', '\r', '\U{2028}', '\U{2029}'}

  /** The first capture group of `filename[^;=\n]*=((['"]).*?\2|[^;\n]*)` for
      a match starting at index `i`, if one does: a quoted value up to its
      closing quote on the same line, else everything up to `;` or a line
      break. */
  function GroupAt(h: string, i: nat): (r: Option<string>)
    requires i <= |h|
    ensures r.Some? ==> i + 9 <= |h| && h[i..i + 8] == "filename"
  {
    if !(i + 8 <= |h| && h[i..i + 8] == "filename") then None
    else
      var j := StopAt(h, i + 8, {';', '=', '\n'});
      if j == |h| || h[j] != '=' then None
      else
        var v := j + 1;
        var close := if v < |h| && (h[v] == '\'' || h[v] == '"') then StopAt(h, v + 1, {h[v]} + LineTerminators) else |h|;
        if close < |h| && h[close] == h[v] then Some(h[v..close + 1])
        else Some(h[v..StopAt(h, v, {';', '\n'})])
  }

  /** `regex.exec(header)?.[1]`: the group of the leftmost match from `i` on. */
  function Exec(h: string, i: nat): (r: Option<string>)
    requires i <= |h|
    ensures r.Some? ==> exists k :: i <= k <= |h| && GroupAt(h, k) == r
    ensures r.None? ==> forall k :: i <= k <= |h| ==> GroupAt(h, k).None?
    decreases |h| - i
  {
    var g := GroupAt(h, i);
    if g.Some? then g
    else if i == |h| then None
    else Exec(h, i + 1)
  }

  /** `replace(/['"]/g, '')` */
  function RemoveQuotes(s: string): (r: string)
    ensures forall c :: c in r <==> c in s && c != '\'' && c != '"'
    ensures |r| <= |s|
  {
    if |s| == 0 then ""
    else
      var rest := RemoveQuotes(s[1..]);
      assert forall c :: c in s <==> c == s[0] || c in s[1..];
      if s[0] == '\'' || s[0] == '"' then rest else [s[0]] + rest
  }

  /** The name a Content-Disposition header gives, if its match is non-empty. */
  function HeaderFilename(h: string): Option<string> {
    var g := Exec(h, 0);
    if g.Some? && g.value != "" then Some(RemoveQuotes(g.value)) else None
  }

  /** `pathname.split('/').slice(-1)[0]` */
  function LastSegment(pathname: string): string {
    var parts := Split(pathname, '/');
    parts[|parts| - 1]
  }

  /** The file name: from a non-empty header when it matches, else
      `unknown`; without a header the URL's last path segment when it is
      non-empty, else `unknown`. */
  function Basename(contentDisposition: Option<string>, pathname: string): string {
    if contentDisposition.Some? && contentDisposition.value != "" then
      var f := HeaderFilename(contentDisposition.value);
      if f.Some? then f.value else Unknown
    else
      var candidate := LastSegment(pathname);
      if candidate != "" then candidate else Unknown
  }

  /** `r` is what follows the last `/` of `pathname`, or all of it. */
  predicate SlashTail(pathname: string, r: string) {
    && '/' !in r && EndsWith(pathname, r)
    && (|r| < |pathname| ==> pathname[|pathname| - |r| - 1] == '/')
  }

  /** The last segment is the part of the path after its last `/`. */
  lemma {:induction false} LastSegmentIsTail(pathname: string)
    ensures SlashTail(pathname, LastSegment(pathname))
    decreases |pathname|
  {
    var k := IndexOfChar(pathname, '/');
    if k >= 0 {
      var tail := pathname[k + 1..];
      LastSegmentIsTail(tail);
      LastSegmentSkips(pathname, k);
      SlashTailStep(pathname, k, LastSegment(tail));
    } else {
      assert LastSegment(pathname) == pathname;
    }
  }

  lemma LastSegmentSkips(pathname: string, k: int)
    requires k == IndexOfChar(pathname, '/') && k >= 0
    ensures LastSegment(pathname) == LastSegment(pathname[k + 1..])
  {
    var rest := Split(pathname[k + 1..], '/');
    assert Split(pathname, '/') == [pathname[..k]] + rest;
    LastOfCons(pathname[..k], rest);
  }

  lemma LastOfCons(x: string, rest: seq<string>)
    requires |rest| >= 1
    ensures var s := [x] + rest; s[|s| - 1] == rest[|rest| - 1]
  {
  }

  /** A tail after a `/` is a tail of the longer path. */
  lemma SlashTailStep(pathname: string, k: nat, r: string)
    requires k < |pathname| && pathname[k] == '/' && SlashTail(pathname[k + 1..], r)
    ensures SlashTail(pathname, r)
  {
    var tail := pathname[k + 1..];
    assert pathname[|pathname| - |r|..] == tail[|tail| - |r|..];
    var j := |pathname| - |r| - 1;
    if |r| == |tail| {
      assert j == k;
    } else {
      assert pathname[j] == tail[|tail| - |r| - 1];
    }
  }

  /** A header's name never keeps a quote, a header that does not match
      gives `unknown` without falling back to the URL, and so does a path
      ending in `/` without a header. */
  lemma BasenameCases(contentDisposition: Option<string>, pathname: string)
    ensures contentDisposition.Some? && contentDisposition.value != "" ==>
      var r := Basename(contentDisposition, pathname);
      '\'' !in r && '"' !in r
    ensures contentDisposition.Some? && contentDisposition.value != "" && HeaderFilename(contentDisposition.value).None? ==>
      Basename(contentDisposition, pathname) == Unknown
    ensures (contentDisposition.None? || contentDisposition.value == "") && |pathname| > 0 && pathname[|pathname| - 1] == '/' ==>
      Basename(contentDisposition, pathname) == Unknown
  {
    if (contentDisposition.None? || contentDisposition.value == "") && |pathname| > 0 && pathname[|pathname| - 1] == '/' {
      LastSegmentIsTail(pathname);
    }
  }

  /** A header starting `filename="…"` names the quoted text. */
  lemma QuotedHeader(name: string, rest: string, pathname: string)
    requires forall c :: c in name ==> c != '"' && c != '\'' && c !in LineTerminators
    ensures Basename(Some("filename=\"" + name + "\"" + rest), pathname) == name
  {
    var h := "filename=\"" + name + "\"" + rest;
    assert h[..8] == "filename";
    assert h[8] == '=' && h[9] == '"';
    assert StopAt(h, 8, {';', '=', '\n'}) == 8;
    var close := 10 + |name|;
    assert h[close] == '"';
    assert forall j :: 10 <= j < close ==> h[j] == name[j - 10];
    assert StopAt(h, 10, {'"'} + LineTerminators) == close by {
      StopAtFirst(h, 10, {'"'} + LineTerminators, close);
    }
    assert h[9..close + 1] == "\"" + name + "\"";
    assert GroupAt(h, 0) == Some("\"" + name + "\"");
    assert RemoveQuotes("\"" + name + "\"") == name by {
      RemoveQuotesSkips(name);
    }
  }

  /** A value without a quote in front runs up to `;` or a line break. */
  lemma PlainHeader(value: string, rest: string, pathname: string)
    requires value != "" && value[0] != '"' && value[0] != '\''
    requires ';' !in value && '\n' !in value
    ensures Basename(Some("filename=" + value + ";" + rest), pathname) == RemoveQuotes(value)
  {
    var h := "filename=" + value + ";" + rest;
    assert h[..8] == "filename";
    assert h[8] == '=';
    assert StopAt(h, 8, {';', '=', '\n'}) == 8;
    var end := 9 + |value|;
    assert h[end] == ';';
    assert forall j :: 9 <= j < end ==> h[j] == value[j - 9];
    assert StopAt(h, 9, {';', '\n'}) == end by {
      StopAtFirst(h, 9, {';', '\n'}, end);
    }
    assert h[9..end] == value;
    assert GroupAt(h, 0) == Some(value);
  }

  /** `StopAt` stops at the first stop character. */
  lemma {:induction false} StopAtFirst(s: string, from: nat, stops: set<char>, k: nat)
    requires from <= k < |s| && s[k] in stops
    requires forall j :: from <= j < k ==> s[j] !in stops
    ensures StopAt(s, from, stops) == k
    decreases k - from
  {
    if from < k {
      StopAtFirst(s, from + 1, stops, k);
    }
  }

  /** Quotes around a quote-free text are all `RemoveQuotes` takes away. */
  lemma {:induction false} RemoveQuotesSkips(name: string)
    requires forall c :: c in name ==> c != '"' && c != '\''
    ensures RemoveQuotes("\"" + name + "\"") == name
  {
    var s := "\"" + name + "\"";
    assert s[1..] == name + "\"";
    RemoveQuotesKeeps(name, "\"");
    assert RemoveQuotes("\"") == "" by {
      assert "\""[1..] == "";
    }
  }

  /** `RemoveQuotes` keeps a quote-free head unchanged. */
  lemma {:induction false} RemoveQuotesKeeps(name: string, tail: string)
    requires forall c :: c in name ==> c != '"' && c != '\''
    ensures RemoveQuotes(name + tail) == name + RemoveQuotes(tail)
    decreases |name|
  {
    if |name| > 0 {
      assert (name + tail)[1..] == name[1..] + tail;
      assert name[0] in name;
      assert forall c :: c in name[1..] ==> c in name;
      RemoveQuotesKeeps(name[1..], tail);
      assert name == [name[0]] + name[1..];
    } else {
      assert name + tail == tail;
    }
  }

  /** `Exec` finds the first index whose group exists. */
  lemma {:induction false} ExecFirst(h: string, i: nat, k: nat)
    requires i <= k <= |h| && GroupAt(h, k).Some?
    requires NoGroupBetween(h, i, k)
    ensures Exec(h, i) == GroupAt(h, k)
    decreases k - i
  {
    if i < k {
      NoGroupStep(h, i, k);
      ExecSkips(h, i);
      ExecFirst(h, i + 1, k);
    } else {
      ExecStops(h, i);
    }
  }

  /** No match starts at an index in `[i, k)`. */
  predicate NoGroupBetween(h: string, i: nat, k: nat)
    requires k <= |h|
  {
    forall m :: i <= m < k ==> GroupAt(h, m).None?
  }

  lemma NoGroupStep(h: string, i: nat, k: nat)
    requires i < k <= |h| && NoGroupBetween(h, i, k)
    ensures GroupAt(h, i).None? && NoGroupBetween(h, i + 1, k)
  {
  }

  lemma ExecStops(h: string, i: nat)
    requires i <= |h| && GroupAt(h, i).Some?
    ensures Exec(h, i) == GroupAt(h, i)
  {
  }

  lemma ExecSkips(h: string, i: nat)
    requires i < |h| && GroupAt(h, i).None?
    ensures Exec(h, i) == Exec(h, i + 1)
  {
  }

  // ---- the body ----

  /** The bytes of the chunks, in order. */
  function Flatten(chunks: seq<seq<byte>>): seq<byte> {
    if |chunks| == 0 then [] else Flatten(chunks[..|chunks| - 1]) + chunks[|chunks| - 1]
  }

  /** A prefix of the chunks holds no more bytes than all of them. */
  lemma {:induction false} FlattenPrefix(chunks: seq<seq<byte>>, i: nat)
    requires i <= |chunks|
    ensures |Flatten(chunks[..i])| <= |Flatten(chunks)|
    decreases |chunks| - i
  {
    if i < |chunks| {
      FlattenPrefix(chunks, i + 1);
      assert chunks[..i + 1][..i] == chunks[..i];
    } else {
      assert chunks[..i] == chunks;
    }
  }

  /** The error `Uint8Array.prototype.set` raises when a chunk does not fit. */
  const OffsetOutOfBounds := "offset is out of bounds"

  /** The `for await` loop: each chunk is set at the running offset; the
      first chunk that does not fit stops the copy with nothing of it
      written. */
  method ReceiveChunks(fileContent: array<byte>, chunks: seq<seq<byte>>) returns (r: Result<nat>)
    modifies fileContent
    ensures r.Ok? <==> |Flatten(chunks)| <= fileContent.Length
    ensures r.Ok? ==>
      && r.value == |Flatten(chunks)|
      && fileContent[..r.value] == Flatten(chunks)
      && fileContent[r.value..] == old(fileContent[r.value..])
    ensures r.Err? ==>
      && r.error == OffsetOutOfBounds
      && exists i :: 0 <= i < |chunks| && |Flatten(chunks[..i])| <= fileContent.Length < |Flatten(chunks[..i + 1])|
           && fileContent[..|Flatten(chunks[..i])|] == Flatten(chunks[..i])
           && fileContent[|Flatten(chunks[..i])|..] == old(fileContent[|Flatten(chunks[..i])|..])
  {
    var downloadedBytes := 0;
    ghost var original := fileContent[..];
    for i := 0 to |chunks|
      invariant downloadedBytes == |Flatten(chunks[..i])| <= fileContent.Length
      invariant fileContent[..downloadedBytes] == Flatten(chunks[..i])
      invariant fileContent[downloadedBytes..] == original[downloadedBytes..]
    {
      var chunk := chunks[i];
      assert chunks[..i + 1][..i] == chunks[..i];
      assert Flatten(chunks[..i + 1]) == Flatten(chunks[..i]) + chunk;
      if downloadedBytes + |chunk| > fileContent.Length {
        FlattenPrefix(chunks, i + 1);
        return Err(OffsetOutOfBounds);
      }
      ghost var before := fileContent[..];
      SetAt(fileContent, chunk, downloadedBytes);
      Extended(original, before, fileContent[..], downloadedBytes, chunk, Flatten(chunks[..i]));
      downloadedBytes := downloadedBytes + |chunk|;
    }
    assert chunks[..|chunks|] == chunks;
    r := Ok(downloadedBytes);
  }

  /** `fileContent.set(chunk, offset)` for a chunk that fits. */
  method SetAt(a: array<byte>, chunk: seq<byte>, offset: nat)
    requires offset + |chunk| <= a.Length
    modifies a
    ensures a[..offset] == old(a[..offset])
    ensures a[offset..offset + |chunk|] == chunk
    ensures a[offset + |chunk|..] == old(a[offset + |chunk|..])
  {
    forall k | 0 <= k < |chunk| {
      a[offset + k] := chunk[k];
    }
  }

  /** Writing a chunk right after the copied bytes extends the copy. */
  lemma Extended(original: seq<byte>, before: seq<byte>, after: seq<byte>, d: nat, chunk: seq<byte>, flat: seq<byte>)
    requires |original| == |before| == |after| && d + |chunk| <= |after|
    requires before[..d] == flat && after[..d] == before[..d]
    requires before[d..] == original[d..]
    requires after[d..d + |chunk|] == chunk
    requires after[d + |chunk|..] == before[d + |chunk|..]
    ensures after[..d + |chunk|] == flat + chunk
    ensures after[d + |chunk|..] == original[d + |chunk|..]
  {
    assert after[..d + |chunk|] == after[..d] + after[d..d + |chunk|];
    assert before[d + |chunk|..] == before[d..][|chunk|..];
    assert original[d + |chunk|..] == original[d..][|chunk|..];
  }

  // ---- the whole download ----

  datatype DownloadArgs = DownloadArgs(url: string, saveToFile: bool, destDir: string, returnFileContent: bool)

  /** A response: its status, its Content-Disposition header, its
      Content-Length as a number (0 when missing or not a number) and its
      body's chunks (`null` for no body). */
  datatype HttpResponse = HttpResponse(status: nat, contentDisposition: Option<string>, contentLength: nat,
                                       body: Option<seq<seq<byte>>>)

  /** What `downloadFile` returns. */
  datatype Details = Details(basename: string, filename: Option<string>, fileContent: Option<seq<byte>>)

  type Files = map<string, seq<byte>>

  /** `req.ok` */
  predicate IsOk(status: nat) {
    200 <= status <= 299
  }

  function RequestError(url: string, status: nat): string {
    "Something went wrong while request to \"" + url + "\". Error code: " + NatToString(status)
  }

  function InvalidBodyError(url: string): string {
    "Invalid response body of request to \"" + url + "\""
  }

  /** The buffer once the body is in: the body, then zeros up to the
      announced length. */
  function Received(body: seq<byte>, length: nat): seq<byte>
    requires |body| <= length
  {
    body + seq(length - |body|, _ => 0 as byte)
  }

  /** `downloadFile(arg)` given the response to `arg.url` and that URL's path
      name: the files after it and the details it returns. */
  method Download(arg: DownloadArgs, req: HttpResponse, pathname: string, files: Files)
    returns (r: Result<Details>, after: Files)
    ensures !IsOk(req.status) ==> r == Err(RequestError(arg.url, req.status)) && after == files
    ensures IsOk(req.status) && req.body.None? ==> r == Err(InvalidBodyError(arg.url)) && after == files
    ensures IsOk(req.status) && req.body.Some? && |Flatten(req.body.value)| > req.contentLength ==>
      r == Err(OffsetOutOfBounds) && after == files
    ensures IsOk(req.status) && req.body.Some? && |Flatten(req.body.value)| <= req.contentLength ==>
      var content := Received(Flatten(req.body.value), req.contentLength);
      var basename := Basename(req.contentDisposition, pathname);
      && r.Ok? && r.value.basename == basename
      && (r.value.filename.Some? <==> arg.saveToFile)
      && (arg.saveToFile ==> r.value.filename.value == arg.destDir + "/" + basename
                             && after == files[arg.destDir + "/" + basename := content])
      && (!arg.saveToFile ==> after == files)
      && (r.value.fileContent.Some? <==> arg.returnFileContent)
      && (arg.returnFileContent ==> r.value.fileContent.value == content)
  {
    after := files;
    if !IsOk(req.status) {
      return Err(RequestError(arg.url, req.status)), after;
    }
    var filename := Basename(req.contentDisposition, pathname);
    var fileContent := new byte[req.contentLength](_ => 0 as byte);
    if req.body.None? {
      return Err(InvalidBodyError(arg.url)), after;
    }
    var received := ReceiveChunks(fileContent, req.body.value);
    if received.Err? {
      return Err(received.error), after;
    }
    assert fileContent[..] == fileContent[..received.value] + fileContent[received.value..];
    assert fileContent[..] == Received(Flatten(req.body.value), req.contentLength);
    var details := Details(filename, None, None);
    if arg.saveToFile {
      var filepath := arg.destDir + "/" + filename;
      details := details.(filename := Some(filepath));
      after := after[filepath := fileContent[..]];
    }
    if arg.returnFileContent {
      details := details.(fileContent := Some(fileContent[..]));
    }
    r := Ok(details);
  }
}
