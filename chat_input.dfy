/** The composer of src/components/ChatInput.tsx: its input text and pending attachments, the
    submit step that uploads them before handing the message on, file intake with its size and
    type rules, removal, the transcript join and the byte-to-string loop before base64. The
    storage bucket, the auth lookup, FileReader and the transcription service are oracles. */
module ChatInput {
  import opened Text
  import opened ChatSession
  import opened ChatMessageView

  /** A file as the browser reports it. */
  datatype FileInfo = FileInfo(name: string, size: nat, mimeType: string)

  /** An attachment waiting in the composer; `kind` is "image" or "file". */
  datatype FileAttachment = FileAttachment(file: FileInfo, preview: string, kind: string)

  /** What one storage upload answered. */
  datatype UploadResult = UploadFailed | UploadedAt(publicUrl: string)

  /** How a submit ended. */
  datatype SubmitOutcome =
    | Ignored
    | LoginRequired
    | Sent(input: string, attachments: Option<seq<Attachment>>)

  /** Ten mebibytes, the largest file the composer accepts. */
  const MaxFileSize: nat := 10 * 1024 * 1024

  /** The attachment type: "image" exactly for MIME types starting with "image/". */
  function AttachmentKind(mimeType: string): (kind: string)
    ensures kind == "image" <==> StartsWith(mimeType, "image/")
    ensures kind == "image" || kind == "file"
  {
    if StartsWith(mimeType, "image/") then "image" else "file"
  }

  /** An image picked in the composer is drawn as an image in the message bubble, and any other
      file as a file chip. */
  lemma PickedKindMatchesBubble(f: FileInfo, url: string)
    ensures ViewOf(Attachment(url, AttachmentKind(f.mimeType), f.name)).ImageView?
            <==> StartsWith(f.mimeType, "image/")
  {
  }

  /** The guard of `handleSubmit`. */
  predicate IgnoredSubmit(input: string, attachments: seq<FileAttachment>, isLoading: bool,
                          isUploading: bool) {
    (Trim(input) == "" && attachments == []) || isLoading || isUploading
  }

  /** The attachments a completed upload loop hands on: one per successful upload, in order,
      with the public URL, the composer's type and the file name. */
  function UploadedFiles(attachments: seq<FileAttachment>, uploads: seq<UploadResult>): (r: seq<Attachment>)
    requires |uploads| == |attachments|
    ensures |r| <= |attachments|
    decreases |attachments|
  {
    if attachments == [] then []
    else
      var rest := UploadedFiles(attachments[1..], uploads[1..]);
      match uploads[0]
      case UploadFailed => rest
      case UploadedAt(url) => [Attachment(url, attachments[0].kind, attachments[0].file.name)] + rest
  }

  /** Uploading keeps exactly the successful ones: every attachment handed on comes from an
      attachment whose upload succeeded, and with no failure nothing is dropped. */
  lemma {:induction false} UploadedFilesSpec(attachments: seq<FileAttachment>, uploads: seq<UploadResult>)
    requires |uploads| == |attachments|
    ensures (forall k :: 0 <= k < |uploads| ==> uploads[k].UploadedAt?) ==>
              |UploadedFiles(attachments, uploads)| == |attachments|
    ensures (forall k :: 0 <= k < |uploads| ==> uploads[k].UploadFailed?) ==>
              UploadedFiles(attachments, uploads) == []
    ensures forall a :: a in UploadedFiles(attachments, uploads) ==>
              exists k :: 0 <= k < |attachments| && uploads[k] == UploadedAt(a.url)
                          && a.kind == attachments[k].kind && a.name == attachments[k].file.name
    decreases |attachments|
  {
    if attachments != [] {
      UploadedFilesSpec(attachments[1..], uploads[1..]);
      forall a | a in UploadedFiles(attachments, uploads)
        ensures exists k :: 0 <= k < |attachments| && uploads[k] == UploadedAt(a.url)
                            && a.kind == attachments[k].kind && a.name == attachments[k].file.name
      {
        if a in UploadedFiles(attachments[1..], uploads[1..]) {
          var k :| 0 <= k < |attachments[1..]| && uploads[1..][k] == UploadedAt(a.url)
                   && a.kind == attachments[1..][k].kind && a.name == attachments[1..][k].file.name;
          assert uploads[k + 1] == uploads[1..][k] && attachments[k + 1] == attachments[1..][k];
        } else {
          assert uploads[0] == UploadedAt(a.url);
        }
      }
    }
  }

  /** Uploading one more attachment extends the list handed on by its own result. */
  lemma {:induction false} UploadedFilesAppend(attachments: seq<FileAttachment>, uploads: seq<UploadResult>,
                                               a: FileAttachment, u: UploadResult)
    requires |uploads| == |attachments|
    ensures UploadedFiles(attachments + [a], uploads + [u])
            == UploadedFiles(attachments, uploads) + UploadedFiles([a], [u])
    decreases |attachments|
  {
    if attachments == [] {
      assert attachments + [a] == [a] && uploads + [u] == [u];
    } else {
      assert (attachments + [a])[1..] == attachments[1..] + [a];
      assert (uploads + [u])[1..] == uploads[1..] + [u];
      UploadedFilesAppend(attachments[1..], uploads[1..], a, u);
    }
  }

  /** The first loop pass whose auth lookup finds no user, if any. */
  function FirstMissingUser(users: seq<Option<string>>): (r: Option<nat>)
    ensures r.Some? ==> r.value < |users| && users[r.value].None?
                        && forall k :: 0 <= k < r.value ==> users[k].Some?
    ensures r.None? <==> forall k :: 0 <= k < |users| ==> users[k].Some?
  {
    if users == [] then None
    else if users[0].None? then Some(0)
    else
      match FirstMissingUser(users[1..])
      case Some(k) => Some(k + 1)
      case None => None
  }

  /** `filter((_, i) => i !== index)`, written by recursion over the list. */
  function RemovedAt<T>(s: seq<T>, index: int): seq<T>
    decreases |s|
  {
    if s == [] then [] else (if index == 0 then [] else [s[0]]) + RemovedAt(s[1..], index - 1)
  }

  /** Removing keeps every other attachment in order: for an index in range it is the list
      without that element, and for any other index the list itself. */
  lemma RemovedAtSlices<T>(s: seq<T>, index: int)
    ensures RemovedAt(s, index) == if 0 <= index < |s| then s[..index] + s[index + 1..] else s
  {
    if 0 <= index < |s| {
      RemovedInRange(s, index);
    } else {
      RemovedOutOfRange(s, index);
    }
  }

  lemma {:induction false} RemovedOutOfRange<T>(s: seq<T>, index: int)
    requires !(0 <= index < |s|)
    ensures RemovedAt(s, index) == s
    decreases |s|
  {
    if s != [] {
      RemovedOutOfRange(s[1..], index - 1);
      assert [s[0]] + s[1..] == s;
    }
  }

  lemma {:induction false} RemovedInRange<T>(s: seq<T>, index: int)
    requires 0 <= index < |s|
    ensures RemovedAt(s, index) == s[..index] + s[index + 1..]
    decreases |s|
  {
    if index == 0 {
      RemovedOutOfRange(s[1..], -1);
      assert s[..0] + s[1..] == s[1..];
    } else {
      RemovedInRange(s[1..], index - 1);
      RemovedStep(s, index);
    }
  }

  lemma RemovedStep<T>(s: seq<T>, index: int)
    requires 0 < index < |s|
    ensures [s[0]] + (s[1..][..index - 1] + s[1..][index..]) == s[..index] + s[index + 1..]
  {
    assert s[..index] == [s[0]] + s[1..][..index - 1];
    assert s[index + 1..] == s[1..][index..];
    AppendAssoc([s[0]], s[1..][..index - 1], s[1..][index..]);
  }

  /** The transcript join: a truthy transcript is appended, after a single space when there is
      text already; otherwise the input stays. */
  function WithTranscript(prev: string, text: Option<string>): string {
    if text.Some? && text.value != ""
    then prev + (if prev != "" then " " else "") + text.value
    else prev
  }

  /** The joined input begins with the previous input, ends with the transcript, and holds one
      space between them exactly when both are non-empty. */
  lemma WithTranscriptSpec(prev: string, text: string)
    requires text != ""
    ensures StartsWith(WithTranscript(prev, Some(text)), prev)
    ensures EndsWith(WithTranscript(prev, Some(text)), text)
    ensures |WithTranscript(prev, Some(text))| == |prev| + |text| + (if prev != "" then 1 else 0)
    ensures prev != "" ==> WithTranscript(prev, Some(text))[|prev|] == ' '
  {
    var r := WithTranscript(prev, Some(text));
    assert r[..|prev|] == prev;
    assert r[|r| - |text|..] == text;
  }

  /** What file intake does with a list of chosen files: the non-images to append at once, the
      images to append once read, and the files too large to keep, each in order. */
  datatype Intake = Intake(appended: seq<FileAttachment>, images: seq<FileInfo>, rejected: seq<FileInfo>)

  /** One file's part of the intake. */
  function IntakeOf(f: FileInfo): (i: Intake) {
    if f.size > MaxFileSize then Intake([], [], [f])
    else if AttachmentKind(f.mimeType) == "image" then Intake([], [f], [])
    else Intake([FileAttachment(f, "", "file")], [], [])
  }

  function Join3(x: Intake, y: Intake): Intake {
    Intake(x.appended + y.appended, x.images + y.images, x.rejected + y.rejected)
  }

  /** The intake of a list of files, file by file. */
  function IntakeAll(files: seq<FileInfo>): Intake
    decreases |files|
  {
    if files == [] then Intake([], [], [])
    else Join3(IntakeAll(files[..|files| - 1]), IntakeOf(files[|files| - 1]))
  }

  predicate Kept(f: FileInfo) {
    f.size <= MaxFileSize
  }

  /** Intake splits the files without losing any: every rejected file is over the limit, every
      kept one is at most the limit and lands in the part its MIME type says, and the three
      parts together are as long as the list. */
  lemma {:induction false} IntakeSpec(files: seq<FileInfo>)
    ensures |IntakeAll(files).appended| + |IntakeAll(files).images| + |IntakeAll(files).rejected| == |files|
    ensures forall f :: f in IntakeAll(files).rejected ==> f in files && !Kept(f)
    ensures forall f :: f in IntakeAll(files).images ==>
              f in files && Kept(f) && StartsWith(f.mimeType, "image/")
    ensures forall a :: a in IntakeAll(files).appended ==>
              a.file in files && Kept(a.file) && !StartsWith(a.file.mimeType, "image/")
              && a.kind == "file" && a.preview == ""
    decreases |files|
  {
    if files != [] {
      var init := files[..|files| - 1];
      IntakeSpec(init);
      assert files == init + [files[|files| - 1]];
    }
  }

  /** Every file is kept or rejected by size alone: a file is rejected exactly when it is over
      the limit. */
  lemma {:induction false} IntakeRejectsBySize(files: seq<FileInfo>, f: FileInfo)
    requires f in files
    ensures f in IntakeAll(files).rejected <==> !Kept(f)
    decreases |files|
  {
    var init, last := files[..|files| - 1], files[|files| - 1];
    assert files == init + [last];
    var rejected := IntakeAll(init).rejected + IntakeOf(last).rejected;
    assert IntakeAll(files).rejected == rejected;
    assert f in IntakeOf(last).rejected <==> f == last && !Kept(f);
    if f in init {
      IntakeRejectsBySize(init, f);
    } else {
      IntakeSpec(init);
    }
  }

  /** The files too large to keep, front to back: an independent reading of the size check. */
  function TooLarge(files: seq<FileInfo>): seq<FileInfo>
    decreases |files|
  {
    if files == [] then []
    else (if !Kept(files[0]) then [files[0]] else []) + TooLarge(files[1..])
  }

  /** The kept images, front to back. */
  function KeptImages(files: seq<FileInfo>): seq<FileInfo>
    decreases |files|
  {
    if files == [] then []
    else (if Kept(files[0]) && StartsWith(files[0].mimeType, "image/") then [files[0]] else [])
         + KeptImages(files[1..])
  }

  /** The kept non-images as file chips, front to back. */
  function FileChips(files: seq<FileInfo>): seq<FileAttachment>
    decreases |files|
  {
    if files == [] then []
    else (if Kept(files[0]) && !StartsWith(files[0].mimeType, "image/")
          then [FileAttachment(files[0], "", "file")] else [])
         + FileChips(files[1..])
  }

  /** The too-large filter of a list with one more file at the end. */
  lemma {:induction false} TooLargeAppend(files: seq<FileInfo>, f: FileInfo)
    ensures TooLarge(files + [f]) == TooLarge(files) + TooLarge([f])
    decreases |files|
  {
    if files == [] {
      assert files + [f] == [f];
    } else {
      var xs := files + [f];
      assert xs[0] == files[0] && xs[1..] == files[1..] + [f];
      TooLargeAppend(files[1..], f);
    }
  }

  /** The image filter of a list with one more file at the end. */
  lemma {:induction false} KeptImagesAppend(files: seq<FileInfo>, f: FileInfo)
    ensures KeptImages(files + [f]) == KeptImages(files) + KeptImages([f])
    decreases |files|
  {
    if files == [] {
      assert files + [f] == [f];
    } else {
      var xs := files + [f];
      assert xs[0] == files[0] && xs[1..] == files[1..] + [f];
      KeptImagesAppend(files[1..], f);
    }
  }

  /** The file-chip filter of a list with one more file at the end. */
  lemma {:induction false} FileChipsAppend(files: seq<FileInfo>, f: FileInfo)
    ensures FileChips(files + [f]) == FileChips(files) + FileChips([f])
    decreases |files|
  {
    if files == [] {
      assert files + [f] == [f];
    } else {
      var xs := files + [f];
      assert xs[0] == files[0] && xs[1..] == files[1..] + [f];
      FileChipsAppend(files[1..], f);
    }
  }

  /** Intake keeps every part in the order of the chosen files: each part equals its filter of
      the list, read front to back. */
  lemma {:induction false} IntakeInOrder(files: seq<FileInfo>)
    ensures IntakeAll(files) == Intake(FileChips(files), KeptImages(files), TooLarge(files))
    decreases |files|
  {
    if files != [] {
      var init, last := files[..|files| - 1], files[|files| - 1];
      assert files == init + [last];
      IntakeInOrder(init);
      TooLargeAppend(init, last);
      KeptImagesAppend(init, last);
      FileChipsAppend(init, last);
      assert [last][1..] == [];
    }
  }

  /** Membership in the three filters. */
  lemma {:induction false} FiltersMembers(files: seq<FileInfo>, f: FileInfo)
    ensures f in TooLarge(files) <==> f in files && !Kept(f)
    ensures f in KeptImages(files) <==> f in files && Kept(f) && StartsWith(f.mimeType, "image/")
    ensures FileAttachment(f, "", "file") in FileChips(files)
            <==> f in files && Kept(f) && !StartsWith(f.mimeType, "image/")
    decreases |files|
  {
    if files != [] {
      FiltersMembers(files[1..], f);
      assert files == [files[0]] + files[1..];
    }
  }

  /** No chosen file is lost: every file is refused exactly when it is over the limit, reaches
      the image part exactly when it is a kept image, and reaches the appended part, as a file
      chip, exactly when it is a kept non-image. */
  lemma IntakeKeepsKept(files: seq<FileInfo>, f: FileInfo)
    ensures f in IntakeAll(files).rejected <==> f in files && !Kept(f)
    ensures f in IntakeAll(files).images <==> f in files && Kept(f) && StartsWith(f.mimeType, "image/")
    ensures FileAttachment(f, "", "file") in IntakeAll(files).appended
            <==> f in files && Kept(f) && !StartsWith(f.mimeType, "image/")
  {
    IntakeInOrder(files);
    FiltersMembers(files, f);
  }

  /** The bytes as one character each, which `String.fromCharCode` gives for values below 256. */
  function Latin1(bytes: seq<int>): (s: string)
    requires forall k :: 0 <= k < |bytes| ==> 0 <= bytes[k] < 256
    ensures |s| == |bytes|
  {
    seq(|bytes|, k requires 0 <= k < |bytes| => bytes[k] as char)
  }

  /** The character codes of a string. */
  function Codes(s: string): seq<int> {
    seq(|s|, k requires 0 <= k < |s| => s[k] as int)
  }

  /** The binary string keeps every byte: its character codes are the bytes. */
  lemma Latin1RoundTrip(bytes: seq<int>)
    requires forall k :: 0 <= k < |bytes| ==> 0 <= bytes[k] < 256
    ensures Codes(Latin1(bytes)) == bytes
  {
  }

  const ChunkSize: nat := 0x8000

  /** The loop of `transcribeAudio` that builds the binary string in chunks of 0x8000 bytes: it
      covers every byte once, in order. */
  method BinaryString(bytes: seq<int>) returns (binary: string)
    requires forall k :: 0 <= k < |bytes| ==> 0 <= bytes[k] < 256
    ensures binary == Latin1(bytes)
  {
    binary := "";
    var i := 0;
    while i < |bytes|
      invariant binary == Latin1(bytes[..if i < |bytes| then i else |bytes|])
      decreases |bytes| - i
    {
      var end := if i + ChunkSize < |bytes| then i + ChunkSize else |bytes|;
      var chunk := bytes[i..end];
      assert Latin1(bytes[..end]) == Latin1(bytes[..i]) + Latin1(chunk);
      binary := binary + Latin1(chunk);
      i := i + ChunkSize;
    }
  }

  class Composer {
    var input: string
    var attachments: seq<FileAttachment>
    var isUploading: bool

    constructor()
      ensures input == "" && attachments == [] && !isUploading
    {
      input := "";
      attachments := [];
      isUploading := false;
    }

    /** `handleSubmit`. The guard ignores a blank submit without attachments and any submit
        while loading or uploading. Otherwise each attachment is uploaded in turn: the first
        pass whose auth lookup finds no user ends the submit without sending (input and
        attachments stay), a failed upload is skipped, and after the loop the message is handed
        on with the uploaded files (none counts as absent) and the composer is cleared. With no
        attachments the user is never looked up. `users[k]` and `uploads[k]` are what pass `k`
        of the loop is told. */
    method HandleSubmit(isLoading: bool, users: seq<Option<string>>, uploads: seq<UploadResult>)
      returns (outcome: SubmitOutcome)
      requires |users| == |attachments| && |uploads| == |attachments|
      modifies this
      ensures IgnoredSubmit(old(input), old(attachments), isLoading, old(isUploading)) ==>
                outcome.Ignored? && input == old(input) && attachments == old(attachments)
                && isUploading == old(isUploading)
      ensures !IgnoredSubmit(old(input), old(attachments), isLoading, old(isUploading)) ==>
                !isUploading
                && (FirstMissingUser(users).Some? ==>
                      outcome.LoginRequired? && input == old(input) && attachments == old(attachments))
                && (FirstMissingUser(users).None? ==>
                      var files := UploadedFiles(old(attachments), uploads);
                      outcome == Sent(old(input), if files != [] then Some(files) else None)
                      && input == "" && attachments == [])
    {
      if IgnoredSubmit(input, attachments, isLoading, isUploading) {
        return Ignored;
      }
      isUploading := true;
      var files, missing := UploadAll(attachments, users, uploads);
      isUploading := false;
      if missing {
        return LoginRequired;
      }
      outcome := Sent(input, if files != [] then Some(files) else None);
      input := "";
      attachments := [];
    }

    /** `handleFileChange`: no file list changes nothing. Otherwise files over the limit are
        refused, non-images are appended at once with an empty preview, and the images are
        returned, to be appended by `ImageLoaded` once their data URL is read. */
    method HandleFileChange(files: Option<seq<FileInfo>>) returns (pending: seq<FileInfo>, refused: seq<FileInfo>)
      modifies this
      ensures files.None? ==> attachments == old(attachments) && pending == [] && refused == []
      ensures files.Some? ==>
                attachments == old(attachments) + IntakeAll(files.value).appended
                && pending == IntakeAll(files.value).images
                && refused == IntakeAll(files.value).rejected
      ensures input == old(input) && isUploading == old(isUploading)
    {
      if files.None? {
        return [], [];
      }
      var intake := TakeFiles(files.value);
      attachments := attachments + intake.appended;
      pending, refused := intake.images, intake.rejected;
    }

    /** The FileReader callback: an image read appends its attachment with the data URL as its
        preview. */
    method ImageLoaded(f: FileInfo, dataUrl: string)
      modifies this
      ensures attachments == old(attachments) + [FileAttachment(f, dataUrl, "image")]
      ensures input == old(input) && isUploading == old(isUploading)
    {
      attachments := attachments + [FileAttachment(f, dataUrl, "image")];
    }

    /** `removeAttachment`. */
    method RemoveAttachment(index: int)
      modifies this
      ensures attachments == RemovedAt(old(attachments), index)
      ensures input == old(input) && isUploading == old(isUploading)
    {
      attachments := RemovedAt(attachments, index);
    }

    /** The transcript callback of the recorder. */
    method ApplyTranscript(text: Option<string>)
      modifies this
      ensures input == WithTranscript(old(input), text)
      ensures attachments == old(attachments) && isUploading == old(isUploading)
    {
      input := WithTranscript(input, text);
    }
  }

  /** The upload loop of `handleSubmit`: whether some pass found no user, and otherwise the
      uploaded files in order. */
  method UploadAll(attachments: seq<FileAttachment>, users: seq<Option<string>>, uploads: seq<UploadResult>)
    returns (files: seq<Attachment>, missing: bool)
    requires |users| == |attachments| && |uploads| == |attachments|
    ensures missing <==> FirstMissingUser(users).Some?
    ensures !missing ==> files == UploadedFiles(attachments, uploads)
    ensures missing ==> var stop := FirstMissingUser(users).value;
                        files == UploadedFiles(attachments[..stop], uploads[..stop])
  {
    files := [];
    missing := false;
    var k := 0;
    while k < |attachments| && !missing
      invariant 0 <= k <= |attachments|
      invariant forall j :: 0 <= j < k ==> users[j].Some?
      invariant missing ==> k < |attachments| && users[k].None?
      invariant files == UploadedFiles(attachments[..k], uploads[..k])
      decreases |attachments| - k, !missing
    {
      if users[k].None? {
        missing := true;
      } else {
        assert attachments[..k + 1] == attachments[..k] + [attachments[k]];
        assert uploads[..k + 1] == uploads[..k] + [uploads[k]];
        UploadedFilesAppend(attachments[..k], uploads[..k], attachments[k], uploads[k]);
        if uploads[k].UploadedAt? {
          files := files + [Attachment(uploads[k].publicUrl, attachments[k].kind, attachments[k].file.name)];
        }
        k := k + 1;
      }
    }
    assert attachments[..|attachments|] == attachments && uploads[..|uploads|] == uploads;
  }

  /** The `forEach` of `handleFileChange`. */
  method TakeFiles(files: seq<FileInfo>) returns (intake: Intake)
    ensures intake == IntakeAll(files)
  {
    intake := Intake([], [], []);
    for k := 0 to |files|
      invariant intake == IntakeAll(files[..k])
    {
      assert files[..k + 1][..k] == files[..k];
      var f := files[k];
      if f.size > MaxFileSize {
        intake := intake.(rejected := intake.rejected + [f]);
      } else if AttachmentKind(f.mimeType) == "image" {
        intake := intake.(images := intake.images + [f]);
      } else {
        intake := intake.(appended := intake.appended + [FileAttachment(f, "", "file")]);
      }
    }
    assert files[..|files|] == files;
  }
}
