/** The dashboard's upload reader: a multipart/form-data body (RFC 2046 section 5.1.1, RFC 7578
    section 4.2) to the file's name, its text and the horizon field. */
module Multipart {
  import opened Options
  import opened ByteStrings
  import opened Decimal

  const MAX_UPLOAD := 64 * 1024 * 1024
  const PAPER_HORIZON := 15
  const DEFAULT_NAME: Bytes := "upload.csv"
  const NAME_CSV: Bytes := "name=\"csv\""
  const NAME_H: Bytes := "name=\"h\""
  const DISPOSITION: Bytes := "content-disposition:"
  const FILENAME: Bytes := "filename="

  datatype Upload = Upload(name: Bytes, text: Bytes, h: int)

  datatype Reply = Accepted(upload: Upload) | TooLarge | NotAForm

  const DEFAULTS := Upload(DEFAULT_NAME, "", PAPER_HORIZON)

  // ------------------------------------------------------------------ the reader, as functions

  /** What stands between the first `boundary=` and the next one, trimmed and unquoted. */
  function Boundary(ctype: Bytes): Bytes {
    var cut := Split(ctype, "boundary=");
    if |cut| < 2 then [] else StripQuotes(StripSpace(cut[1]))
  }

  function Disposition(lines: seq<Bytes>): Bytes {
    if lines == [] then []
    else if StartsWith(Lower(lines[0]), DISPOSITION) then lines[0]
    else Disposition(lines[1..])
  }

  /** The last non-empty `filename=` among the tokens, or `name`. */
  function FileName(tokens: seq<Bytes>, name: Bytes): Bytes
    decreases |tokens|
  {
    if tokens == [] then name else FileName(tokens[1..], TokenName(tokens[0], name))
  }

  function TokenName(token: Bytes, name: Bytes): Bytes {
    var token := StripSpace(token);
    if !StartsWith(Lower(token), FILENAME) then name
    else
      var got := StripQuotes(StripSpace(AfterEquals(token)));
      if got == [] then name else got
  }

  /** `token.split(b"=", 1)[1]` */
  function AfterEquals(token: Bytes): Bytes {
    match Find(token, "=")
    case None => []
    case Some(i) => token[i + 1..]
  }

  function Horizon(val: Bytes): int {
    match ParseInt(val)
    case None => PAPER_HORIZON
    case Some(n) => n
  }

  predicate RoutedAsCsv(disp: Bytes) {
    Find(disp, NAME_CSV).Some?
  }

  lemma RoutedSpec(disp: Bytes)
    ensures RoutedAsCsv(disp) <==> Contains(disp, NAME_CSV)
    ensures Find(disp, NAME_H).Some? <==> Contains(disp, NAME_H)
  {
    FindSpec(disp, NAME_CSV);
    FindSpec(disp, NAME_H);
  }

  function ReadField(u: Upload, lines: seq<Bytes>, val: Bytes): Upload {
    var disp := Disposition(lines);
    if RoutedAsCsv(disp) then Upload(FileName(Split(disp, ";"), u.name), val, u.h)
    else if Find(disp, NAME_H).Some? then u.(h := Horizon(val))
    else u
  }

  function ChopBreak(val: Bytes): Bytes {
    if EndsWith(val, CRLF) then val[..|val| - 2] else val
  }

  /** The header lines and the value of a part, or None when it has no blank line. */
  function Opened(part: Bytes): Option<(seq<Bytes>, Bytes)> {
    match Find(part, BLANK)
    case None => None
    case Some(i) => Some((Split(part[..i], CRLF), ChopBreak(part[i + 4..])))
  }

  function ReadPart(u: Upload, part: Bytes): Upload {
    match Opened(part)
    case None => u
    case Some((lines, val)) => ReadField(u, lines, val)
  }

  function ReadParts(u: Upload, parts: seq<Bytes>): Upload
    decreases |parts|
  {
    if parts == [] then u else ReadParts(ReadPart(u, parts[0]), parts[1..])
  }

  predicate IsForm(ctype: Bytes) {
    Find(ctype, "multipart/form-data").Some? && Find(ctype, "boundary=").Some?
  }

  function Read(ctype: Bytes, length: nat, stream: Bytes): Reply {
    if length > MAX_UPLOAD then TooLarge
    else if !IsForm(ctype) then NotAForm
    else
      var raw := if length <= |stream| then stream[..length] else stream;
      Accepted(ReadParts(DEFAULTS, Split(raw, "--" + Boundary(ctype))))
  }

  /** When the reader refuses: above 64 MiB whatever else, and otherwise exactly when the content type lacks
      one of its two marks. */
  lemma RefusedExactly(ctype: Bytes, length: nat, stream: Bytes)
    ensures Read(ctype, length, stream).TooLarge? <==> length > 67108864
    ensures Read(ctype, length, stream).NotAForm? <==>
            length <= 67108864 && !(Contains(ctype, "multipart/form-data") && Contains(ctype, "boundary="))
  {
    FindSpec(ctype, "multipart/form-data");
    FindSpec(ctype, "boundary=");
  }

  /** Nothing after the announced length is read, and a stream that ends early is read as it is. */
  lemma OnlyTheLengthIsRead(ctype: Bytes, length: nat, stream: Bytes, more: Bytes)
    requires length <= |stream|
    ensures Read(ctype, length, stream + more) == Read(ctype, length, stream)
    ensures length <= MAX_UPLOAD ==> Read(ctype, length, stream[..length]) == Read(ctype, length, stream)
  {
    assert (stream + more)[..length] == stream[..length] == stream[..length][..length];
  }

  /** A form without any part is an unnamed empty file with the paper's horizon. */
  lemma NothingIsDefaults(ctype: Bytes)
    requires IsForm(ctype)
    ensures Read(ctype, 0, []) == Accepted(Upload("upload.csv", "", 15))
  {
    var d := "--" + Boundary(ctype);
    hide Boundary, IsForm;
    SplitClean([], d);
    SplitClean([], BLANK);
    FindSpec([], BLANK);
    assert ReadParts(DEFAULTS, [[]]) == ReadParts(ReadPart(DEFAULTS, []), []);
  }

  // ------------------------------------------------------------------ the reader, as it runs

  lemma ReadPartsSnoc(u: Upload, parts: seq<Bytes>, k: nat)
    requires k < |parts|
    ensures ReadParts(u, parts[..k + 1]) == ReadPart(ReadParts(u, parts[..k]), parts[k])
    decreases k
  {
    if k > 0 {
      assert parts[..k + 1][1..] == parts[1..][..k];
      assert parts[..k][1..] == parts[1..][..k - 1];
      ReadPartsSnoc(ReadPart(u, parts[0]), parts[1..], k - 1);
    } else {
      assert parts[..1][1..] == [] && parts[..0] == [];
    }
  }

  method FindDisposition(lines: seq<Bytes>) returns (disp: Bytes)
    ensures disp == Disposition(lines)
  {
    disp := [];
    var k := 0;
    while k < |lines|
      invariant k <= |lines| && disp == []
      invariant Disposition(lines) == Disposition(lines[k..])
    {
      if StartsWith(Lower(lines[k]), DISPOSITION) {
        return lines[k];
      }
      k := k + 1;
    }
  }

  method FindFileName(tokens: seq<Bytes>, before: Bytes) returns (name: Bytes)
    ensures name == FileName(tokens, before)
  {
    name := before;
    var k := 0;
    while k < |tokens|
      invariant k <= |tokens|
      invariant FileName(tokens, before) == FileName(tokens[k..], name)
    {
      var token := StripSpace(tokens[k]);
      if StartsWith(Lower(token), FILENAME) {
        var got := StripQuotes(StripSpace(AfterEquals(token)));
        if got != [] {
          name := got;
        }
      }
      k := k + 1;
    }
  }

  method KeepField(lines: seq<Bytes>, val: Bytes, name: Bytes, text: Bytes, h: int)
    returns (name': Bytes, text': Bytes, h': int)
    ensures Upload(name', text', h') == ReadField(Upload(name, text, h), lines, val)
  {
    name', text', h' := name, text, h;
    var disp := FindDisposition(lines);
    if RoutedAsCsv(disp) {
      text' := val;
      name' := FindFileName(Split(disp, ";"), name);
    } else if Find(disp, NAME_H).Some? {
      h' := Horizon(val);
    }
  }

  method OpenPart(part: Bytes) returns (found: Option<(seq<Bytes>, Bytes)>)
    ensures found == Opened(part)
  {
    var blank := Find(part, BLANK);
    if blank == None {
      return None;
    }
    var head, val := part[..blank.value], part[blank.value + 4..];
    if EndsWith(val, CRLF) {
      val := val[..|val| - 2];
    }
    return Some((Split(head, CRLF), val));
  }

  method ReadOne(part: Bytes, name: Bytes, text: Bytes, h: int) returns (name': Bytes, text': Bytes, h': int)
    ensures Upload(name', text', h') == ReadPart(Upload(name, text, h), part)
  {
    var found := OpenPart(part);
    if found == None {
      return name, text, h;
    }
    name', text', h' := KeepField(found.value.0, found.value.1, name, text, h);
  }

  method ReadAll(parts: seq<Bytes>) returns (u: Upload)
    ensures u == ReadParts(DEFAULTS, parts)
  {
    var name, text, h := DEFAULT_NAME, "", PAPER_HORIZON;
    var k := 0;
    while k < |parts|
      invariant k <= |parts|
      invariant Upload(name, text, h) == ReadParts(DEFAULTS, parts[..k])
    {
      ReadPartsSnoc(DEFAULTS, parts, k);
      name, text, h := ReadOne(parts[k], name, text, h);
      k := k + 1;
    }
    assert parts[..|parts|] == parts;
    u := Upload(name, text, h);
  }

  method ReadUpload(ctype: Bytes, length: nat, stream: Bytes) returns (reply: Reply)
    ensures reply == Read(ctype, length, stream)
  {
    if length > MAX_UPLOAD {
      return TooLarge;
    }
    var raw := if length <= |stream| then stream[..length] else stream;
    if !IsForm(ctype) {
      return NotAForm;
    }
    var u := ReadAll(Split(raw, "--" + Boundary(ctype)));
    return Accepted(u);
  }
}
