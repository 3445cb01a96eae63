/** What the message bubble of src/components/ChatMessage.tsx shows: the content with the
    attachment list that `sendMessage` appends removed again, the attachments as images or
    file chips, and the text paragraph only when there is text left. */
module ChatMessageView {
  import opened Text
  import opened ChatSession

  /** The literal start of the pattern `/\n\n\[Attachments:.*\]$/`. */
  const Marker: string := "\n\n[Attachments:"

  /** No character of `s` is one that `.` refuses to match. */
  predicate SingleLine(s: string) {
    forall j :: 0 <= j < |s| ==> !IsLineTerminator(s[j])
  }

  /** The pattern matches from index `i` to the end of `s`: the marker, then characters other
      than line terminators, then a final "]" (the pattern has no `m` flag, so `$` is the end of
      the string). */
  predicate MatchAt(s: string, i: nat) {
    && i + |Marker| + 1 <= |s|
    && s[i..i + |Marker|] == Marker
    && s[|s| - 1] == ']'
    && SingleLine(s[i + |Marker|..|s| - 1])
  }

  /** The leftmost index from `from` on where the pattern matches. */
  function FirstMatch(s: string, from: nat): (r: Option<nat>)
    ensures r.Some? ==> from <= r.value && MatchAt(s, r.value)
    ensures r.None? ==> forall i :: from <= i ==> !MatchAt(s, i)
    decreases |s| - from
  {
    if from + |Marker| + 1 > |s| then None
    else if MatchAt(s, from) then Some(from)
    else FirstMatch(s, from + 1)
  }

  /** `content.replace(/\n\n\[Attachments:.*\]$/, '')`: the text before the first match, or the
      content itself when the pattern does not match. */
  function DisplayContent(content: string): string {
    match FirstMatch(content, 0)
    case Some(i) => content[..i]
    case None => content
  }

  /** A match starts with the marker's characters. */
  lemma MatchMarker(s: string, i: nat, k: nat)
    requires MatchAt(s, i) && k < |Marker|
    ensures s[i + k] == Marker[k]
  {
    assert s[i..i + |Marker|][k] == s[i + k];
  }

  /** After the marker, up to the final "]", a match holds no line terminator. */
  lemma MatchTail(s: string, i: nat, k: nat)
    requires MatchAt(s, i) && i + |Marker| <= k < |s| - 1
    ensures !IsLineTerminator(s[k])
  {
    assert s[i + |Marker|..|s| - 1][k - i - |Marker|] == s[k];
  }

  lemma MarkerHasOneBreakPair()
    ensures Marker[0] == '\n' && Marker[1] == '\n' && Marker[2] == '['
    ensures forall k :: 2 <= k < |Marker| ==> Marker[k] != '\n'
  {
  }

  /** The pattern matches at one index at most: a later start would put a line break inside
      the part `.*` covers, or inside the marker. */
  lemma MatchUnique(s: string, i: nat, j: nat)
    requires MatchAt(s, i) && MatchAt(s, j) && i <= j
    ensures i == j
  {
    if i < j {
      MarkerHasOneBreakPair();
      MatchMarker(s, j, 0);
      if j >= i + |Marker| {
        MatchTail(s, i, j);
      } else if j > i + 1 {
        MatchMarker(s, i, j - i);
      }
    }
  }

  /** Where the pattern matches, the display is exactly the text before the match. */
  lemma DisplayStrips(s: string, i: nat)
    requires MatchAt(s, i)
    ensures DisplayContent(s) == s[..i]
  {
    var r := FirstMatch(s, 0);
    if r.Some? {
      if r.value <= i {
        MatchUnique(s, r.value, i);
      } else {
        MatchUnique(s, i, r.value);
      }
    }
  }

  /** A content is shown unchanged exactly when the pattern matches nowhere in it. */
  lemma DisplayUnchangedIff(s: string)
    ensures DisplayContent(s) == s <==> forall i :: 0 <= i ==> !MatchAt(s, i)
  {
    var r := FirstMatch(s, 0);
    if r.Some? {
      assert |DisplayContent(s)| < |s|;
    }
  }

  lemma SingleLineAppend(x: string, y: string)
    requires SingleLine(x) && SingleLine(y)
    ensures SingleLine(x + y)
  {
    forall j | 0 <= j < |x + y| ensures !IsLineTerminator((x + y)[j]) {
      if j >= |x| {
        assert (x + y)[j] == y[j - |x|];
      }
    }
  }

  /** The text before a marker, the marker, a single line and "]" match at the marker. */
  lemma MatchAfter(t: string, mid: string)
    requires SingleLine(mid)
    ensures MatchAt(t + Marker + mid + "]", |t|)
  {
    var s := t + Marker + mid + "]";
    assert s[|t|..|t| + |Marker|] == Marker;
    assert s[|t| + |Marker|..|s| - 1] == mid;
  }

  /** The list of attachment names `sendMessage` appends is a single line when every name
      is. */
  lemma NamesLine(attachments: seq<Attachment>)
    requires forall k :: 0 <= k < |attachments| ==> SingleLine(attachments[k].name)
    ensures SingleLine(" " + Join(Names(attachments), ", "))
  {
    JoinHasNoLineTerminator(Names(attachments), ", ");
    SingleLineAppend(" ", Join(Names(attachments), ", "));
  }

  /** The round trip with `sendMessage`: when a message has attachments whose names are single
      lines, the bubble shows exactly the trimmed input the user typed. */
  lemma DisplayRoundTrip(input: string, attachments: Option<seq<Attachment>>)
    requires HasAttachments(attachments)
    requires forall k :: 0 <= k < |attachments.value| ==> SingleLine(attachments.value[k].name)
    ensures DisplayContent(MessageContent(input, attachments)) == Trim(input)
  {
    var t := Trim(input);
    var mid := " " + Join(Names(attachments.value), ", ");
    var s := MessageContent(input, attachments);
    assert s == t + Marker + mid + "]";
    NamesLine(attachments.value);
    MatchAfter(t, mid);
    DisplayStrips(s, |t|);
    assert s[..|t|] == t;
  }

  /** The bubble's text paragraph is rendered only when there is text left to show. */
  predicate ShowsParagraph(content: string) {
    DisplayContent(content) != ""
  }

  /** A send of attachments with a blank input shows no paragraph, and one with typed text
      shows it. */
  lemma ParagraphOfAttachmentMessage(input: string, attachments: Option<seq<Attachment>>)
    requires HasAttachments(attachments)
    requires forall k :: 0 <= k < |attachments.value| ==> SingleLine(attachments.value[k].name)
    ensures ShowsParagraph(MessageContent(input, attachments)) <==> Trim(input) != ""
  {
    DisplayRoundTrip(input, attachments);
  }

  /** How one attachment is drawn. */
  datatype AttachmentView = ImageView(src: string, alt: string) | FileChip(name: string)

  /** An image only when the attachment's type is exactly "image"; otherwise a chip with its
      name. Both link to the attachment's URL. */
  function ViewOf(a: Attachment): (v: AttachmentView) {
    if a.kind == "image" then ImageView(a.url, a.name) else FileChip(a.name)
  }

  /** The attachment strip is drawn only for a non-empty attachment list, one view per
      attachment, in order. */
  function AttachmentStrip(attachments: Option<seq<Attachment>>): (vs: seq<AttachmentView>)
    ensures |vs| == (if HasAttachments(attachments) then |attachments.value| else 0)
    ensures forall k :: 0 <= k < |vs| ==> vs[k] == ViewOf(attachments.value[k])
  {
    if HasAttachments(attachments)
    then seq(|attachments.value|, k requires 0 <= k < |attachments.value| => ViewOf(attachments.value[k]))
    else []
  }
}
