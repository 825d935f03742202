/** The fields of a chat row, one by one (client/src/converters.rs, `chat_messages_to_slint`). */
module ChatRowFields {
  import opened ChatRowData
  import opened Mentions
  import opened Wrappers

  /** Numbers of 32 bits, the upper half of them negative. */
  predicate Signed(n: nat, i: int) {
    (n < 0x8000_0000 ==> i == n) && (0x8000_0000 <= n < 0x1_0000_0000 ==> i == n - 0x1_0000_0000)
  }

  lemma SignedIs(n: Word32)
    ensures Signed(n, AsI32(n))
  {
  }

  /** What is copied from the message, and what the animator and the feed put in later. */
  lemma {:induction false} CopiedFields(core: Core, d: Displayed, o: Options)
    requires SpansOk(core)
    ensures var r := RowOf(core, d, o);
            && r.messageId == d.messageId && r.senderId == d.senderId && r.senderName == d.senderName
            && r.senderInitials == d.senderInitials && r.text == d.displayBody && r.timestamp == d.timestamp
            && r.displayTime == d.displayTime && r.isGroupStart == d.isGroupStart
            && r.isContinuation == d.isContinuation && r.isSystem == d.isSystem && r.isEdited == d.isEdited
            && r.isDeleted == d.isDeleted && r.dayLabel == d.dayLabel
            && !r.isUnreadDivider && !r.hasGifImage && !r.gifFailed && !r.isClip
            && r.gifImage == NO_PICTURE && r.clipDuration == "" && r.clipId == ""
  {
  }

  /** GIF and reply. */
  lemma {:induction false} OptionalFields(core: Core, d: Displayed, o: Options)
    requires SpansOk(core)
    ensures var r := RowOf(core, d, o);
            && (r.isGif <==> d.gif.Some?)
            && (match d.gif
                case Some(gif) => r.gifUrl == gif.url && Signed(gif.width, r.gifWidth) && Signed(gif.height, r.gifHeight)
                case None => r.gifUrl == "" && r.gifWidth == 0 && r.gifHeight == 0)
            && r.replyToId == (match d.replyTo case Some(id) => id case None => "")
            && r.replyToName == (match d.replyToName case Some(name) => name case None => "")
            && r.replyPreviewText == (match d.replyPreview case Some(text) => text case None => "")
  {
    if d.gif.Some? {
      SignedIs(d.gif.value.width);
      SignedIs(d.gif.value.height);
    }
  }

  lemma {:induction false} MentionedIs(mentions: seq<MentionRef>, userId: string)
    ensures Mentioned(mentions, userId) <==> exists i :: 0 <= i < |mentions| && mentions[i].userId == userId
  {
    if Mentioned(mentions, userId) {
      var m :| m in mentions && m.userId == userId;
      var i :| 0 <= i < |mentions| && mentions[i] == m;
    }
    if i :| 0 <= i < |mentions| && mentions[i].userId == userId { assert mentions[i] in mentions; }
  }

  lemma {:induction false} SelfField(core: Core, d: Displayed, o: Options)
    requires SpansOk(core)
    ensures RowOf(core, d, o).mentionsSelf == Mentioned(d.mentions, o.userId)
  {
  }

  /** Whether the user is mentioned. */
  lemma {:induction false} MentionsField(core: Core, d: Displayed, o: Options)
    requires SpansOk(core)
    ensures RowOf(core, d, o).mentionsSelf <==> exists i :: 0 <= i < |d.mentions| && d.mentions[i].userId == o.userId
  {
    SelfField(core, d, o);
    MentionedIs(d.mentions, o.userId);
  }

  /** The user's own picture for their rows, else the cached one of the sender, else none. */
  lemma {:induction false} AvatarFields(core: Core, d: Displayed, o: Options)
    requires SpansOk(core)
    ensures var r := RowOf(core, d, o);
            if d.senderId == o.userId && o.hasUserAvatar then r.hasSenderAvatar && r.senderAvatar == o.userAvatar
            else if d.senderId in o.avatars then r.hasSenderAvatar && r.senderAvatar == o.avatars[d.senderId]
            else !r.hasSenderAvatar && r.senderAvatar == NO_PICTURE
  {
  }

  /** The text on display: prepared unless the message is from the system or deleted, and cut after 8000
      characters. Its markup is parsed, and is the plain text where it does not parse. */
  lemma {:induction false} TextFields(core: Core, d: Displayed, o: Options)
    requires SpansOk(core)
    ensures var r := RowOf(core, d, o);
            var plain := d.isSystem || d.isDeleted;
            var body := if plain then d.displayBody else core.prepareBody(d.displayBody).0;
            && r.displayText == (if |body| <= 8000 then body else body[..8000] + "\U{2026}")
            && r.links == (if plain then [] else core.prepareBody(d.displayBody).1)
            && (r.isEmojiOnly <==> !plain && core.isEmojiOnly(d.displayBody))
            && (plain ==> r.displayStyled == Plain(r.displayText))
  {
  }

  lemma {:induction false} MarkupField(core: Core, d: Displayed, o: Options, spans: seq<Span>)
    requires SpansOk(core) && !d.isSystem && !d.isDeleted
    requires spans == core.mentionSpans(RowOf(core, d, o).displayText, d.mentions)
    ensures var r := RowOf(core, d, o);
            && Spanning(spans, 0, |r.displayText|)
            && r.displayStyled == match core.parseMarkdown(Marked(r.displayText, spans, 0, o.mentionColor))
                                  case Some(tree) => Parsed(tree)
                                  case None => Plain(r.displayText)
  {
  }

  /** The uploads, in order. */
  lemma {:induction false} ImageFields(core: Core, d: Displayed, o: Options, i: nat)
    requires SpansOk(core) && i < |d.images|
    ensures var r, up := RowOf(core, d, o), d.images[i];
            && r.isImage && |r.images| == |d.images|
            && r.images[i].url == up.url && Signed(up.width, r.images[i].width) && Signed(up.height, r.images[i].height)
            && r.images[i].bytesLabel == (if up.bytes > 0 then core.sizeLabel(up.bytes) else "")
            && !r.images[i].hasImage && !r.images[i].failed
  {
    SignedIs(d.images[i].width);
    SignedIs(d.images[i].height);
  }

  lemma {:induction false} NoImageFields(core: Core, d: Displayed, o: Options)
    requires SpansOk(core)
    ensures RowOf(core, d, o).isImage <==> d.images != []
    ensures |RowOf(core, d, o).images| == |d.images|
  {
  }

  // ----- emoji -----

  /** A name between colons: two to twenty-four small letters, digits or underscores. */
  predicate IsEmojiName(name: string) {
    2 <= |name| <= 24 && forall i :: 0 <= i < |name| ==> 'a' <= name[i] <= 'z' || '0' <= name[i] <= '9' || name[i] == '_'
  }

  /** A token has a picture if and only if it is a name of a crew emoji between colons. */
  lemma EmojiPictureIs(token: string, crew: map<string, Picture>, picture: Picture)
    ensures EmojiPicture(token, crew) == Some(picture)
            <==> exists name :: token == ":" + name + ":" && IsEmojiName(name) && name in crew && crew[name] == picture
  {
    if EmojiPicture(token, crew) == Some(picture) {
      var name := token[1..|token| - 1];
      assert token == ":" + name + ":";
      assert IsEmojiName(name);
    }
    if name :| token == ":" + name + ":" && IsEmojiName(name) && name in crew && crew[name] == picture {
      assert token[1..|token| - 1] == name;
    }
  }

  lemma {:induction false} PicturesAre(words: seq<string>, crew: map<string, Picture>, i: nat)
    requires Pictures(words, crew).Some? && i < |words|
    ensures EmojiPicture(words[i], crew) == Some(Pictures(words, crew).value[i])
  {
    if i > 0 { PicturesAre(words[1..], crew, i - 1); }
  }

  lemma {:induction false} PicturesIff(words: seq<string>, crew: map<string, Picture>)
    ensures Pictures(words, crew).Some? <==> forall i :: 0 <= i < |words| ==> EmojiPicture(words[i], crew).Some?
  {
    if words != [] {
      PicturesIff(words[1..], crew);
      if Pictures(words, crew).Some? {
        forall i | 0 <= i < |words| ensures EmojiPicture(words[i], crew).Some? { PicturesAre(words, crew, i); }
      }
      if forall i :: 0 <= i < |words| ==> EmojiPicture(words[i], crew).Some? {
        forall i | 0 <= i < |words[1..]| ensures EmojiPicture(words[1..][i], crew).Some? {
          assert words[1..][i] == words[i + 1];
        }
      }
    }
  }

  /** The pictures of a body of one to three crew emoji and nothing else, and none otherwise. */
  lemma {:induction false} CrewEmojiField(core: Core, d: Displayed, o: Options)
    requires SpansOk(core)
    ensures var r, words := RowOf(core, d, o), core.words(d.displayBody);
            if !d.isSystem && !d.isDeleted && 1 <= |words| <= 3
               && forall i :: 0 <= i < |words| ==> EmojiPicture(words[i], o.crewEmoji).Some?
            then |r.crewEmoji| == |words|
                 && forall i :: 0 <= i < |words| ==> EmojiPicture(words[i], o.crewEmoji) == Some(r.crewEmoji[i])
            else r.crewEmoji == []
  {
    var words := core.words(d.displayBody);
    PicturesIff(words, o.crewEmoji);
    if Pictures(words, o.crewEmoji).Some? {
      forall i | 0 <= i < |words|
        ensures EmojiPicture(words[i], o.crewEmoji) == Some(Pictures(words, o.crewEmoji).value[i])
      {
        PicturesAre(words, o.crewEmoji, i);
      }
    }
  }

  // ----- reactions -----

  /** An emoji with its users: how many they are, whether the user is one of them, and its picture. */
  predicate ShowsReaction(r: Reaction, emoji: string, users: seq<string>, o: Options) {
    && r.emoji == emoji && Signed(|users|, r.count) && (r.mine <==> o.userId in users)
    && match EmojiPicture(emoji, o.crewEmoji)
       case Some(picture) => r.hasImage && r.image == picture
       case None => !r.hasImage && r.image == NO_PICTURE
  }

  lemma RowsOfPrefix(byEmoji: seq<(string, seq<string>)>, o: Options, i: nat)
    requires 0 < i <= |byEmoji|
    ensures |ReactionRows(byEmoji[..i], o)|
            == (if byEmoji[0].1 == [] then 0 else 1) + |ReactionRows(byEmoji[1..][..i - 1], o)|
  {
    assert byEmoji[..i][0] == byEmoji[0] && byEmoji[..i][1..] == byEmoji[1..][..i - 1];
  }

  /** Every emoji that somebody used has a reaction, after those of the emoji before it. */
  lemma {:induction false} ReactionAt(byEmoji: seq<(string, seq<string>)>, o: Options, i: nat)
    requires i < |byEmoji| && byEmoji[i].1 != []
    ensures var at, rows := |ReactionRows(byEmoji[..i], o)|, ReactionRows(byEmoji, o);
            at < |rows| && ShowsReaction(rows[at], byEmoji[i].0, byEmoji[i].1, o)
  {
    if i == 0 {
      assert byEmoji[..0] == [];
      if |byEmoji[0].1| < 0x1_0000_0000 { SignedIs(|byEmoji[0].1|); }
    } else {
      ReactionAt(byEmoji[1..], o, i - 1);
      RowsOfPrefix(byEmoji, o, i);
    }
  }

  /** And no other. */
  lemma {:induction false} OnlyReactions(byEmoji: seq<(string, seq<string>)>, o: Options, q: nat) returns (i: nat)
    requires q < |ReactionRows(byEmoji, o)|
    ensures i < |byEmoji| && byEmoji[i].1 != [] && |ReactionRows(byEmoji[..i], o)| == q
  {
    var here := if byEmoji[0].1 == [] then 0 else 1;
    if q < here {
      i := 0;
      assert byEmoji[..0] == [];
    } else {
      var j := OnlyReactions(byEmoji[1..], o, q - here);
      i := j + 1;
      RowsOfPrefix(byEmoji, o, i);
    }
  }

  /** The row has the reactions to its message. */
  lemma {:induction false} ReactionField(core: Core, d: Displayed, o: Options)
    requires SpansOk(core)
    ensures RowOf(core, d, o).reactions == if d.messageId in o.reactions then ReactionRows(o.reactions[d.messageId], o) else []
  {
  }

  // ----- the comparison -----

  /** The comparison looks at no field but these: whatever the others are, rows that agree here are the
      same. */
  lemma LooksAtNothingElse(a: ChatRow, b: ChatRow)
    requires a.text == b.text && a.displayText == b.displayText && a.timestamp == b.timestamp
    requires a.displayTime == b.displayTime && a.isGroupStart == b.isGroupStart && a.isContinuation == b.isContinuation
    requires a.isEdited == b.isEdited && a.isDeleted == b.isDeleted && a.mentionsSelf == b.mentionsSelf
    requires a.hasSenderAvatar == b.hasSenderAvatar && a.replyToName == b.replyToName
    requires a.replyPreviewText == b.replyPreviewText && a.senderName == b.senderName
    requires a.isEmojiOnly == b.isEmojiOnly && |a.crewEmoji| == |b.crewEmoji| && a.isImage == b.isImage
    requires a.dayLabel == b.dayLabel && |a.images| == |b.images| && |a.reactions| == |b.reactions|
    requires forall i :: 0 <= i < |a.reactions| ==>
               a.reactions[i] == b.reactions[i].(image := a.reactions[i].image)
    ensures ChatRowSame(a, b)
  {
    forall i | 0 <= i < |a.reactions|
      ensures a.reactions[i].emoji == b.reactions[i].emoji && a.reactions[i].count == b.reactions[i].count
              && a.reactions[i].mine == b.reactions[i].mine && a.reactions[i].hasImage == b.reactions[i].hasImage
    {
      assert a.reactions[i] == b.reactions[i].(image := a.reactions[i].image);
    }
  }
}
