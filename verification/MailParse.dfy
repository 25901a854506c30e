/** The part loop of the MIME parser: which files it writes and which attachments it reports. */
module MailParse {
  import opened Results
  import opened Store
  import opened Text
  import opened TimeText

  const MAX_TEXT: nat := 10 * 1024 * 1024

  datatype TextKind = Plain | Html | OtherText

  /** How saving one attachment ends. */
  datatype Saving = OpenFails | CopyFails | Copied

  /**
    One MIME part, after its headers are read: inline text, anything that is saved as an attachment,
    or the point where the reader reports an error.
   */
  datatype Part =
    | Inline(kind: TextKind, body: Option<string>)
    | Attached(filename: string, mediaType: string, contentId: string, size: nat, saving: Saving)
    | Broken

  /** What is reported of an attachment besides its identifier and path; size is what the copy wrote. */
  datatype Details = Details(filename: string, contentType: string, contentId: string, size: nat)

  predicate Fails(p: Part) {
    p.Broken? || (p.Inline? && p.body.None?) || (p.Attached? && p.saving != Copied)
  }

  /** The index of the first part that fails. */
  function FirstFailure(parts: seq<Part>): (j: nat)
    ensures j <= |parts| && (j < |parts| ==> Fails(parts[j])) && forall i :: 0 <= i < j ==> !Fails(parts[i])
  {
    if parts == [] || Fails(parts[0]) then 0 else 1 + FirstFailure(parts[1..])
  }

  predicate NoneFails(parts: seq<Part>, j: nat)
    requires j <= |parts|
  {
    forall i :: 0 <= i < j ==> !Fails(parts[i])
  }

  lemma FirstFailureIs(parts: seq<Part>, j: nat)
    requires j <= |parts| && NoneFails(parts, j) && (j < |parts| ==> Fails(parts[j]))
    ensures FirstFailure(parts) == j
  {
  }

  function AttachedCount(parts: seq<Part>): nat {
    if parts == [] then 0 else AttachedCount(parts[..|parts| - 1]) + if parts[|parts| - 1].Attached? then 1 else 0
  }

  function Cut(body: string): string {
    if |body| > MAX_TEXT then body[..MAX_TEXT] else body
  }

  function OrText(earlier: string, p: Part, kind: TextKind): string {
    if earlier == "" && p.Inline? && p.kind == kind && p.body.Some? then Cut(p.body.value) else earlier
  }

  /** The first non-empty text of a kind, cut to the limit; empty if there is none. */
  function FirstText(parts: seq<Part>, kind: TextKind): string {
    if parts == [] then ""
    else
      OrText(FirstText(parts[..|parts| - 1], kind), parts[|parts| - 1], kind)
  }

  /** The paths of attachments 1 to n of a message. */
  function PathsUpTo(k: Key, n: nat): set<Path> {
    if n == 0 then {} else PathsUpTo(k, n - 1) + {AttachmentOf(k, n).path}
  }

  lemma AttachmentsSnoc(k: Key, n: nat)
    ensures AttachmentsFrom(k, 1, n + 1) == AttachmentsFrom(k, 1, n) + [AttachmentOf(k, n + 1)]
  {
  }

  predicate Angle(c: char) { c == '<' || c == '>' }

  /** Angle brackets are cut off at both ends. */
  function TrimAngles(s: string): string
    decreases |s|
  {
    if s == "" then s
    else if Angle(s[0]) then TrimAngles(s[1..])
    else if Angle(s[|s| - 1]) then TrimAngles(s[..|s| - 1])
    else s
  }

  function DetailsFor(index: nat, p: Part): Details
    requires p.Attached?
  {
    Details(if p.filename == "" then "attachment-" + Decimal(index) else p.filename,
            if p.mediaType == "" then "application/octet-stream" else p.mediaType,
            TrimAngles(p.contentId), p.size)
  }

  function AllDetails(parts: seq<Part>): seq<Details> {
    if parts == [] then []
    else
      var front, p := parts[..|parts| - 1], parts[|parts| - 1];
      AllDetails(front) + if p.Attached? then [DetailsFor(AttachedCount(parts), p)] else []
  }

  /** What taking one part does to the attachment tree: a failed copy removes the file it was writing. */
  function FilesWith(files: set<Path>, k: Key, p: Part, index: nat): set<Path> {
    if p.Attached? && p.saving == Copied then files + {AttachmentOf(k, index).path}
    else if p.Attached? && p.saving == CopyFails then files - {AttachmentOf(k, index).path}
    else files
  }

  /** What the loop leaves in the attachment tree when it stops before or at part j. */
  function FilesAfter(files: set<Path>, k: Key, parts: seq<Part>, j: nat): set<Path>
    requires j <= |parts|
  {
    var n := AttachedCount(parts[..j]);
    var written := files + PathsUpTo(k, n);
    if j < |parts| then FilesWith(written, k, parts[j], n + 1) else written
  }

  // ----- what these functions say -----

  lemma {:induction false} DetailsCount(parts: seq<Part>)
    ensures |AllDetails(parts)| == AttachedCount(parts)
  {
    if parts != [] { DetailsCount(parts[..|parts| - 1]); }
  }

  predicate IsText(p: Part, kind: TextKind) {
    p.Inline? && p.kind == kind && p.body.Some? && p.body.value != ""
  }

  predicate FirstTextAt(parts: seq<Part>, kind: TextKind, i: nat)
    requires i < |parts|
  {
    IsText(parts[i], kind) && forall j :: 0 <= j < i ==> !IsText(parts[j], kind)
  }

  /** The body is the first non-empty text of its kind, cut to ten mebibytes; without one it is empty. */
  lemma {:induction false} FirstTextIs(parts: seq<Part>, kind: TextKind)
    ensures (forall i :: 0 <= i < |parts| ==> !IsText(parts[i], kind)) ==> FirstText(parts, kind) == ""
    ensures forall i :: 0 <= i < |parts| && FirstTextAt(parts, kind, i) ==>
      FirstText(parts, kind) != "" && FirstText(parts, kind) ==
        if |parts[i].body.value| > 10_485_760 then parts[i].body.value[..10_485_760] else parts[i].body.value
  {
    if parts != [] {
      var front := parts[..|parts| - 1];
      FirstTextIs(front, kind);
      forall i | 0 <= i < |front| && FirstTextAt(parts, kind, i) ensures FirstTextAt(front, kind, i) {}
    }
  }

  /** Exactly the angle brackets at both ends are gone. */
  lemma {:induction false} TrimAnglesIs(s: string) returns (a: nat, b: nat)
    ensures a <= b <= |s| && TrimAngles(s) == s[a..b]
    ensures forall i :: 0 <= i < a || b <= i < |s| ==> s[i] == '<' || s[i] == '>'
    ensures a < b ==> s[a] != '<' && s[a] != '>' && s[b - 1] != '<' && s[b - 1] != '>'
    decreases |s|
  {
    if s == "" {
      a, b := 0, 0;
    } else if Angle(s[0]) {
      a, b := TrimAnglesIs(s[1..]);
      assert s[1..][a..b] == s[a + 1..b + 1];
      forall i | 0 <= i < a + 1 || b + 1 <= i < |s| ensures s[i] == '<' || s[i] == '>' {
        if i > 0 { assert s[1..][i - 1] == s[i]; }
      }
      a, b := a + 1, b + 1;
    } else if Angle(s[|s| - 1]) {
      var front := s[..|s| - 1];
      a, b := TrimAnglesIs(front);
      assert front[a..b] == s[a..b];
      forall i | 0 <= i < a || b <= i < |s| ensures s[i] == '<' || s[i] == '>' {
        if i < |front| { assert front[i] == s[i]; }
      }
    } else {
      a, b := 0, |s|;
      assert s[0..|s|] == s;
    }
  }

  /** A missing name and a missing type have defaults; the content identifier loses its brackets. */
  lemma DetailsMean(index: nat, p: Part)
    requires p.Attached?
    ensures var d := DetailsFor(index, p);
      && d.filename == (if p.filename != "" then p.filename else "attachment-" + Decimal(index))
      && d.contentType == (if p.mediaType != "" then p.mediaType else "application/octet-stream")
      && d.contentId == TrimAngles(p.contentId) && d.size == p.size
  {
  }

  /** Each saved part has its own details, at the place and with the number that its order gives. */
  lemma {:induction false} DetailsAt(parts: seq<Part>, j: nat)
    requires j < |parts| && parts[j].Attached?
    ensures |AllDetails(parts)| == AttachedCount(parts) > AttachedCount(parts[..j])
    ensures AllDetails(parts)[AttachedCount(parts[..j])] == DetailsFor(AttachedCount(parts[..j]) + 1, parts[j])
  {
    DetailsCount(parts);
    var front := parts[..|parts| - 1];
    DetailsCount(front);
    if j < |front| {
      DetailsAt(front, j);
      assert front[..j] == parts[..j];
    }
  }

  // ----- the loop as a fold -----

  /** What the loop has collected of the email. */
  datatype Progress = Progress(attachments: seq<Attachment>, details: seq<Details>, textBody: string, htmlBody: string)

  function Take(k: Key, pr: Progress, p: Part): Progress {
    var index := |pr.attachments| + 1;
    match p
    case Broken => pr
    case Inline(_, _) => pr.(textBody := OrText(pr.textBody, p, Plain), htmlBody := OrText(pr.htmlBody, p, Html))
    case Attached(_, _, _, _, _) =>
      pr.(attachments := pr.attachments + [AttachmentOf(k, index)], details := pr.details + [DetailsFor(index, p)])
  }

  function Collected(k: Key, parts: seq<Part>): Progress {
    if parts == [] then Progress([], [], "", "")
    else Take(k, Collected(k, parts[..|parts| - 1]), parts[|parts| - 1])
  }

  function Tree(files: set<Path>, k: Key, parts: seq<Part>): set<Path> {
    if parts == [] then files
    else
      var front := parts[..|parts| - 1];
      FilesWith(Tree(files, k, front), k, parts[|parts| - 1], |Collected(k, front).attachments| + 1)
  }

  /** What the loop returns: attachments 1 to n in order with their details, and the first text of each kind. */
  function Result(k: Key, parts: seq<Part>): Progress {
    Progress(AttachmentsFrom(k, 1, AttachedCount(parts)), AllDetails(parts), FirstText(parts, Plain), FirstText(parts, Html))
  }

  /** The fold numbers the attachments consecutively and keeps the first text of each kind. */
  lemma {:induction false} CollectedIs(k: Key, parts: seq<Part>)
    ensures Collected(k, parts) == Result(k, parts)
  {
    if parts != [] {
      CollectedIs(k, parts[..|parts| - 1]);
      AttachmentsSnoc(k, AttachedCount(parts[..|parts| - 1]));
    }
  }

  lemma {:induction false} TreeIs(files: set<Path>, k: Key, parts: seq<Part>)
    requires NoneFails(parts, |parts|)
    ensures Tree(files, k, parts) == files + PathsUpTo(k, AttachedCount(parts))
  {
    if parts != [] {
      TreeIs(files, k, parts[..|parts| - 1]);
      CollectedIs(k, parts[..|parts| - 1]);
    }
  }

  lemma TakesNext(files: set<Path>, k: Key, parts: seq<Part>, j: nat)
    requires j < |parts|
    ensures Collected(k, parts[..j + 1]) == Take(k, Collected(k, parts[..j]), parts[j])
    ensures Tree(files, k, parts[..j + 1])
         == FilesWith(Tree(files, k, parts[..j]), k, parts[j], |Collected(k, parts[..j]).attachments| + 1)
  {
    assert parts[..j + 1][..j] == parts[..j];
  }

  /** What the loop leaves when it stops at part j, or after the last part. */
  lemma LoopLeaves(files: set<Path>, k: Key, parts: seq<Part>, j: nat)
    requires j <= |parts| && NoneFails(parts, j) && (j < |parts| ==> Fails(parts[j]))
    ensures FirstFailure(parts) == j
    ensures FilesAfter(files, k, parts, j) ==
      if j == |parts| then Tree(files, k, parts[..j])
      else FilesWith(Tree(files, k, parts[..j]), k, parts[j], |Collected(k, parts[..j]).attachments| + 1)
  {
    FirstFailureIs(parts, j);
    TreeIs(files, k, parts[..j]);
    CollectedIs(k, parts[..j]);
  }

  class Parser {
    var files: set<Path>

    constructor (files: set<Path>)
      ensures this.files == files
    {
      this.files := files;
    }

    method SaveAttachment(k: Key, index: nat, part: Part) returns (attachment: Attachment, details: Details, ok: bool)
      requires part.Attached?
      modifies this
      ensures ok == (part.saving == Copied)
      ensures attachment == AttachmentOf(k, index) && details == DetailsFor(index, part)
      ensures files == match part.saving
        case OpenFails => old(files)
        case CopyFails => old(files) - {AttachmentOf(k, index).path}
        case Copied => old(files) + {AttachmentOf(k, index).path}
    {
      var name := if part.filename == "" then "attachment-" + Decimal(index) else part.filename;
      var mediaType := if part.mediaType == "" then "application/octet-stream" else part.mediaType;
      details := Details(name, mediaType, TrimAngles(part.contentId), part.size);
      var id := AttachmentId(EmailId(k), index);
      var path := Path(k.account, EmailId(k), id);
      attachment := Attachment(id, path);
      if part.saving == OpenFails { return attachment, details, false; }
      files := files + {path};
      if part.saving == CopyFails {
        files := files - {path};
        return attachment, details, false;
      }
      return attachment, details, true;
    }

    /** One pass of the part loop: at most one attachment, and the first text of each kind is kept. */
    method TakePart(k: Key, part: Part, pr0: Progress) returns (pr: Progress, ok: bool)
      modifies this
      ensures ok == !Fails(part)
      ensures ok == match part
        case Broken => false
        case Inline(_, body) => body.Some?
        case Attached(_, _, _, _, saving) => saving == Copied
      ensures files == FilesWith(old(files), k, part, |pr0.attachments| + 1)
      ensures ok ==> pr == Take(k, pr0, part)
    {
      pr := pr0;
      match part {
        case Broken => return pr, false;
        case Inline(kind, body) =>
          if body.None? { return pr, false; }
          if kind == Plain && pr.textBody == "" { pr := pr.(textBody := Cut(body.value)); }
          if kind == Html && pr.htmlBody == "" { pr := pr.(htmlBody := Cut(body.value)); }
          return pr, true;
        case Attached(_, _, _, _, _) =>
          var attachment, details, saved := SaveAttachment(k, |pr.attachments| + 1, part);
          if saved {
            pr := pr.(attachments := pr.attachments + [attachment], details := pr.details + [details]);
          }
          return pr, saved;
      }
    }

    /** Numbers the attachments 1, 2, ... in part order and stops at the first part that fails. */
    method Parse(k: Key, receivedAt: Instant, sentAt: Option<Instant>, parts: seq<Part>)
      returns (email: Email, pr: Progress, ok: bool)
      modifies this
      ensures ok == (FirstFailure(parts) == |parts|)
      ensures ok ==> forall i :: 0 <= i < |parts| ==>
        (parts[i].Inline? && parts[i].body.Some?) || (parts[i].Attached? && parts[i].saving == Copied)
      ensures files == FilesAfter(old(files), k, parts, FirstFailure(parts))
      ensures ok ==> pr == Result(k, parts)
      ensures ok ==> WellFormed(email) && email == Email(EmailId(k), k, receivedAt, sentAt, pr.attachments)
    {
      pr := Progress([], [], "", "");
      email := Email(EmailId(k), k, receivedAt, sentAt, []);
      var j := 0;
      while j < |parts|
        invariant j <= |parts| && NoneFails(parts, j)
        invariant files == Tree(old(files), k, parts[..j])
        invariant pr == Collected(k, parts[..j])
      {
        var taken;
        pr, taken := TakePart(k, parts[j], pr);
        if !taken {
          LoopLeaves(old(files), k, parts, j);
          return email, pr, false;
        }
        TakesNext(old(files), k, parts, j);
        j := j + 1;
      }
      assert parts[..|parts|] == parts;
      LoopLeaves(old(files), k, parts, |parts|);
      CollectedIs(k, parts);
      email := email.(attachments := pr.attachments);
      return email, pr, true;
    }
  }
}
