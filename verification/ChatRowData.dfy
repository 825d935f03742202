/** How a chat row is built from a message (client/src/converters.rs, `chat_messages_to_slint`), and
    what the comparison of two rows (`chat_row_same`) misses of it. Functions of mello_core and of the
    window toolkit are the parameter `Core`; pictures are numbers. */
module ChatRowData {
  import opened Bytes
  import opened Mentions
  import opened Wrappers

  type Picture = int

  const NO_PICTURE: Picture := 0

  type Word32 = n: nat | n < U32

  /** `as i32`. */
  function AsI32(n: nat): int {
    var m := n % U32; if m < U32 / 2 then m else m - U32
  }

  // ----- what a row is built from -----

  datatype MentionRef = MentionRef(userId: string, name: string)
  datatype Gif = Gif(url: string, width: Word32, height: Word32)
  datatype Upload = Upload(url: string, width: Word32, height: Word32, bytes: nat)
  datatype Link = Link(url: string, caption: string)

  /** A message made ready by mello_core. */
  datatype Displayed = Displayed(
    messageId: string, senderId: string, senderName: string, senderInitials: string, displayBody: string,
    mentions: seq<MentionRef>, timestamp: string, displayTime: string, isGroupStart: bool, isContinuation: bool,
    isSystem: bool, isEdited: bool, isDeleted: bool, gif: Option<Gif>, images: seq<Upload>, replyTo: Option<string>,
    replyToName: Option<string>, replyPreview: Option<string>, dayLabel: string)

  /** `reactions` gives for a message its emoji in their order, each with its users. */
  datatype Options = Options(
    userId: string, reactions: map<string, seq<(string, seq<string>)>>, userAvatar: Picture, hasUserAvatar: bool,
    avatars: map<string, Picture>, crewEmoji: map<string, Picture>, mentionColor: string)

  datatype Core = Core(
    isEmojiOnly: string -> bool,
    prepareBody: string -> (string, seq<Link>),
    mentionSpans: (string, seq<MentionRef>) -> seq<Span>,
    words: string -> seq<string>,
    sizeLabel: nat -> string,
    parseMarkdown: string -> Option<int>)

  ghost predicate SpansOk(core: Core) {
    forall text, mentions :: Spanning(core.mentionSpans(text, mentions), 0, |text|)
  }

  // ----- the row -----

  /** `Parsed` stands for styled text; only markdown that parses gives one. */
  datatype Styled = Plain(text: string) | Parsed(tree: int)

  datatype Reaction = Reaction(emoji: string, count: int, mine: bool, hasImage: bool, image: Picture)

  datatype ChatImage = ChatImage(url: string, width: int, height: int, bytesLabel: string, image: Picture,
                                 hasImage: bool, failed: bool)

  datatype ChatRow = ChatRow(
    messageId: string, senderId: string, senderName: string, senderInitials: string, senderAvatar: Picture,
    hasSenderAvatar: bool, text: string, displayText: string, displayStyled: Styled, links: seq<Link>,
    timestamp: string, displayTime: string, isGroupStart: bool, isContinuation: bool, isSystem: bool,
    isUnreadDivider: bool, isGif: bool, gifImage: Picture, hasGifImage: bool, gifFailed: bool, gifUrl: string,
    isEmojiOnly: bool, crewEmoji: seq<Picture>, isImage: bool, images: seq<ChatImage>, dayLabel: string,
    reactions: seq<Reaction>, gifWidth: int, gifHeight: int, isClip: bool, clipDuration: string, clipId: string,
    mentionsSelf: bool, replyToId: string, replyToName: string, replyPreviewText: string, isEdited: bool,
    isDeleted: bool)

  function OrEmpty(s: Option<string>): string { if s.Some? then s.value else "" }

  /** System and deleted messages are plain text. */
  predicate IsPlain(d: Displayed) { d.isSystem || d.isDeleted }

  predicate Mentioned(mentions: seq<MentionRef>, userId: string) { exists m :: m in mentions && m.userId == userId }

  function AvatarOf(d: Displayed, o: Options): Option<Picture> {
    if d.senderId == o.userId && o.hasUserAvatar then Some(o.userAvatar)
    else if d.senderId in o.avatars then Some(o.avatars[d.senderId])
    else None
  }

  predicate IsEmojiChar(c: char) { 'a' <= c <= 'z' || '0' <= c <= '9' || c == '_' }

  /** The name in a crew emoji token, `:gg:` is `gg`. */
  function EmojiToken(s: string): Option<string> {
    if |s| < 2 || s[0] != ':' || s[|s| - 1] != ':' then None
    else
      var name := s[1..|s| - 1];
      if 2 <= |name| <= 24 && forall i :: 0 <= i < |name| ==> IsEmojiChar(name[i]) then Some(name) else None
  }

  function EmojiPicture(token: string, crew: map<string, Picture>): Option<Picture> {
    var name := EmojiToken(token);
    if name.Some? && name.value in crew then Some(crew[name.value]) else None
  }

  function Pictures(words: seq<string>, crew: map<string, Picture>): (r: Option<seq<Picture>>)
    ensures r.Some? ==> |r.value| == |words|
  {
    if words == [] then Some([])
    else
      var first, rest := EmojiPicture(words[0], crew), Pictures(words[1..], crew);
      if first.Some? && rest.Some? then Some([first.value] + rest.value) else None
  }

  /** The pictures of a body of one to three crew emoji and nothing else. */
  function CrewEmojiOnly(words: seq<string>, crew: map<string, Picture>): seq<Picture> {
    if words == [] || |words| > 3 then []
    else
      var r := Pictures(words, crew);
      if r.Some? then r.value else []
  }

  function CrewEmojiOf(core: Core, d: Displayed, o: Options): seq<Picture> {
    if IsPlain(d) then [] else CrewEmojiOnly(core.words(d.displayBody), o.crewEmoji)
  }

  function ReactionRows(byEmoji: seq<(string, seq<string>)>, o: Options): seq<Reaction> {
    if byEmoji == [] then []
    else
      var (emoji, users) := byEmoji[0];
      var picture := EmojiPicture(emoji, o.crewEmoji);
      (if users == [] then []
       else [Reaction(emoji, AsI32(|users|), o.userId in users, picture.Some?,
                      if picture.Some? then picture.value else NO_PICTURE)])
      + ReactionRows(byEmoji[1..], o)
  }

  function ReactionsOf(d: Displayed, o: Options): seq<Reaction> {
    if d.messageId in o.reactions then ReactionRows(o.reactions[d.messageId], o) else []
  }

  function ImageOf(core: Core, i: Upload): ChatImage {
    ChatImage(i.url, AsI32(i.width), AsI32(i.height), if i.bytes > 0 then core.sizeLabel(i.bytes) else "",
              NO_PICTURE, false, false)
  }

  function ImagesOf(core: Core, d: Displayed): (images: seq<ChatImage>)
    ensures |images| == |d.images|
  {
    seq(|d.images|, i requires 0 <= i < |d.images| => ImageOf(core, d.images[i]))
  }

  const MAX_DISPLAY_CHARS := 8000
  const ELLIPSIS := '\U{2026}'

  function Truncated(text: string): string {
    if |text| > MAX_DISPLAY_CHARS then text[..MAX_DISPLAY_CHARS] + [ELLIPSIS] else text
  }

  function DisplayText(core: Core, d: Displayed): string {
    Truncated(if IsPlain(d) then d.displayBody else core.prepareBody(d.displayBody).0)
  }

  ghost function Markup(core: Core, d: Displayed, o: Options): string
    requires SpansOk(core)
  {
    var text := DisplayText(core, d);
    assert Spanning(core.mentionSpans(text, d.mentions), 0, |text|);
    Marked(text, core.mentionSpans(text, d.mentions), 0, o.mentionColor)
  }

  ghost function StyledOf(core: Core, d: Displayed, o: Options): Styled
    requires SpansOk(core)
  {
    var parsed := core.parseMarkdown(Markup(core, d, o));
    if IsPlain(d) || parsed.None? then Plain(DisplayText(core, d)) else Parsed(parsed.value)
  }

  ghost function RowOf(core: Core, d: Displayed, o: Options): ChatRow
    requires SpansOk(core)
  {
    var avatar := AvatarOf(d, o);
    ChatRow(
      d.messageId, d.senderId, d.senderName, d.senderInitials, if avatar.Some? then avatar.value else NO_PICTURE,
      avatar.Some?, d.displayBody, DisplayText(core, d), StyledOf(core, d, o),
      if IsPlain(d) then [] else core.prepareBody(d.displayBody).1,
      d.timestamp, d.displayTime, d.isGroupStart, d.isContinuation, d.isSystem,
      false, d.gif.Some?, NO_PICTURE, false, false, if d.gif.Some? then d.gif.value.url else "",
      !IsPlain(d) && core.isEmojiOnly(d.displayBody), CrewEmojiOf(core, d, o), d.images != [], ImagesOf(core, d), d.dayLabel,
      ReactionsOf(d, o), if d.gif.Some? then AsI32(d.gif.value.width) else 0,
      if d.gif.Some? then AsI32(d.gif.value.height) else 0, false, "", "",
      Mentioned(d.mentions, o.userId), OrEmpty(d.replyTo), OrEmpty(d.replyToName),
      OrEmpty(d.replyPreview), d.isEdited, d.isDeleted)
  }

  // ----- the comparison -----

  predicate SameReactions(a: seq<Reaction>, b: seq<Reaction>) {
    && |a| == |b|
    && forall i :: 0 <= i < |a| ==>
         a[i].emoji == b[i].emoji && a[i].count == b[i].count && a[i].mine == b[i].mine && a[i].hasImage == b[i].hasImage
  }

  predicate ChatRowSame(a: ChatRow, b: ChatRow) {
    && a.text == b.text
    && a.displayText == b.displayText
    && a.timestamp == b.timestamp
    && a.displayTime == b.displayTime
    && a.isGroupStart == b.isGroupStart
    && a.isContinuation == b.isContinuation
    && a.isEdited == b.isEdited
    && a.isDeleted == b.isDeleted
    && a.mentionsSelf == b.mentionsSelf
    && a.hasSenderAvatar == b.hasSenderAvatar
    && a.replyToName == b.replyToName
    && a.replyPreviewText == b.replyPreviewText
    && a.senderName == b.senderName
    && a.isEmojiOnly == b.isEmojiOnly
    && |a.crewEmoji| == |b.crewEmoji|
    && a.isImage == b.isImage
    && a.dayLabel == b.dayLabel
    && SameReactions(a.reactions, b.reactions)
    && |a.images| == |b.images|
  }

  // ----- what the animator puts into a row -----

  function Unfilled(i: ChatImage): ChatImage { i.(image := NO_PICTURE, hasImage := false, failed := false) }

  function UnfilledAll(images: seq<ChatImage>): (r: seq<ChatImage>)
    ensures |r| == |images|
  {
    seq(|images|, i requires 0 <= i < |images| => Unfilled(images[i]))
  }

  /** A row as it was built, whatever frames and failures were put into it since. */
  function AsBuilt(r: ChatRow): ChatRow {
    r.(gifImage := NO_PICTURE, hasGifImage := false, gifFailed := false, images := UnfilledAll(r.images))
  }

  /** Frames and failures never decide the comparison, so a rebuild does not wipe them. */
  lemma FillsDoNotMatter(a: ChatRow, b: ChatRow)
    ensures ChatRowSame(a, b) <==> ChatRowSame(AsBuilt(a), AsBuilt(b))
  {
  }

  lemma BuiltAsBuilt(core: Core, d: Displayed, o: Options)
    requires SpansOk(core)
    ensures AsBuilt(RowOf(core, d, o)) == RowOf(core, d, o)
  {
    assert UnfilledAll(ImagesOf(core, d)) == ImagesOf(core, d);
  }

  // ----- what the comparison misses -----

  predicate SameUploads(core: Core, a: seq<Upload>, b: seq<Upload>) {
    && |a| == |b|
    && forall i :: 0 <= i < |a| ==>
         a[i].url == b[i].url && a[i].width == b[i].width && a[i].height == b[i].height
         && (if a[i].bytes > 0 then core.sizeLabel(a[i].bytes) else "")
            == (if b[i].bytes > 0 then core.sizeLabel(b[i].bytes) else "")
  }

  /** The crew's pictures for the emoji of these reactions are the same. */
  predicate SameReactionPictures(reactions: seq<Reaction>, o: Options, p: Options) {
    forall i :: 0 <= i < |reactions| ==>
      EmojiPicture(reactions[i].emoji, o.crewEmoji) == EmojiPicture(reactions[i].emoji, p.crewEmoji)
  }

  /** What has to agree between two builds of a row that compare as the same, but for the markup:
      everything else that the comparison does not look at and the text does not settle. */
  ghost predicate AgreesElsewhere(core: Core, x: Displayed, o: Options, y: Displayed, p: Options) {
    && x.senderId == y.senderId && x.senderInitials == y.senderInitials && x.isSystem == y.isSystem
    && x.gif == y.gif && OrEmpty(x.replyTo) == OrEmpty(y.replyTo)
    && AvatarOf(x, o) == AvatarOf(y, p)
    && SameUploads(core, x.images, y.images)
    && CrewEmojiOf(core, x, o) == CrewEmojiOf(core, y, p)
    && SameReactionPictures(ReactionsOf(x, o), o, p)
  }

  /** And the parser must make the same of both markups. */
  ghost predicate AgreesBeneath(core: Core, x: Displayed, o: Options, y: Displayed, p: Options)
    requires SpansOk(core)
  {
    && AgreesElsewhere(core, x, o, y, p)
    && (!IsPlain(x) ==> core.parseMarkdown(Markup(core, x, o)) == core.parseMarkdown(Markup(core, y, p)))
  }

  ghost function SpansOf(core: Core, d: Displayed): seq<Span> { core.mentionSpans(DisplayText(core, d), d.mentions) }

  /** The same spans are tagged, in the same colour. */
  ghost predicate SameTags(core: Core, x: Displayed, o: Options, y: Displayed, p: Options) {
    SpansOf(core, x) == SpansOf(core, y) && (SpansOf(core, x) == [] || o.mentionColor == p.mentionColor)
  }

  lemma AsI32Injective(a: Word32, b: Word32)
    ensures AsI32(a) == AsI32(b) <==> a == b
  {
  }

  lemma UploadsAgree(core: Core, x: Displayed, y: Displayed)
    ensures ImagesOf(core, x) == ImagesOf(core, y) <==> SameUploads(core, x.images, y.images)
  {
    var a, b := ImagesOf(core, x), ImagesOf(core, y);
    if |a| == |b| {
      forall i | 0 <= i < |a|
        ensures a[i] == b[i] <==>
                (&& x.images[i].url == y.images[i].url && x.images[i].width == y.images[i].width
                 && x.images[i].height == y.images[i].height && a[i].bytesLabel == b[i].bytesLabel)
      {
        AsI32Injective(x.images[i].width, y.images[i].width);
        AsI32Injective(x.images[i].height, y.images[i].height);
      }
      if a == b { forall i | 0 <= i < |a| ensures a[i] == b[i] {} }
    }
  }

  /** A reaction's picture is the crew's. */
  lemma ReactionPicture(byEmoji: seq<(string, seq<string>)>, o: Options, i: nat)
    requires i < |ReactionRows(byEmoji, o)|
    ensures var r := ReactionRows(byEmoji, o)[i];
            EmojiPicture(r.emoji, o.crewEmoji) == if r.hasImage then Some(r.image) else None
    ensures ReactionRows(byEmoji, o)[i].hasImage || ReactionRows(byEmoji, o)[i].image == NO_PICTURE
  {
    var first := if byEmoji[0].1 == [] then 0 else 1;
    if i >= first { ReactionPicture(byEmoji[1..], o, i - first); }
  }

  lemma ReactionsAgree(x: Displayed, o: Options, y: Displayed, p: Options)
    requires SameReactions(ReactionsOf(x, o), ReactionsOf(y, p))
    ensures ReactionsOf(x, o) == ReactionsOf(y, p) <==> SameReactionPictures(ReactionsOf(x, o), o, p)
  {
    var a, b := ReactionsOf(x, o), ReactionsOf(y, p);
    forall i | 0 <= i < |a|
      ensures a[i] == b[i] <==> EmojiPicture(a[i].emoji, o.crewEmoji) == EmojiPicture(a[i].emoji, p.crewEmoji)
    {
      ReactionPicture(o.reactions[x.messageId], o, i);
      ReactionPicture(p.reactions[y.messageId], p, i);
    }
    if a == b { forall i | 0 <= i < |a| ensures a[i] == b[i] {} }
  }

  lemma GifsAgree(x: Option<Gif>, y: Option<Gif>)
    requires x.Some? && y.Some?
    ensures x == y <==> x.value.url == y.value.url && AsI32(x.value.width) == AsI32(y.value.width)
                        && AsI32(x.value.height) == AsI32(y.value.height)
  {
    AsI32Injective(x.value.width, y.value.width);
    AsI32Injective(x.value.height, y.value.height);
  }

  lemma StylesAgree(core: Core, x: Displayed, o: Options, y: Displayed, p: Options)
    requires SpansOk(core) && IsPlain(x) == IsPlain(y) && DisplayText(core, x) == DisplayText(core, y)
    ensures StyledOf(core, x, o) == StyledOf(core, y, p)
            <==> IsPlain(x) || core.parseMarkdown(Markup(core, x, o)) == core.parseMarkdown(Markup(core, y, p))
  {
  }

  lemma EqualThenAgrees(core: Core, x: Displayed, o: Options, y: Displayed, p: Options)
    requires SpansOk(core) && RowOf(core, x, o) == RowOf(core, y, p)
    ensures AgreesBeneath(core, x, o, y, p)
  {
    UploadsAgree(core, x, y);
    ReactionsAgree(x, o, y, p);
    StylesAgree(core, x, o, y, p);
    if x.gif.Some? && y.gif.Some? { GifsAgree(x.gif, y.gif); }
  }

  lemma EqualParts(core: Core, x: Displayed, o: Options, y: Displayed, p: Options)
    requires SpansOk(core) && x.messageId == y.messageId && ChatRowSame(RowOf(core, x, o), RowOf(core, y, p))
    requires x.senderId == y.senderId && x.senderInitials == y.senderInitials && x.isSystem == y.isSystem
    requires x.gif == y.gif && OrEmpty(x.replyTo) == OrEmpty(y.replyTo) && AvatarOf(x, o) == AvatarOf(y, p)
    requires ImagesOf(core, x) == ImagesOf(core, y) && ReactionsOf(x, o) == ReactionsOf(y, p)
    requires StyledOf(core, x, o) == StyledOf(core, y, p) && CrewEmojiOf(core, x, o) == CrewEmojiOf(core, y, p)
    ensures RowOf(core, x, o) == RowOf(core, y, p)
  {
  }

  lemma AgreesThenEqual(core: Core, x: Displayed, o: Options, y: Displayed, p: Options)
    requires SpansOk(core) && x.messageId == y.messageId && AgreesBeneath(core, x, o, y, p)
    requires ChatRowSame(RowOf(core, x, o), RowOf(core, y, p))
    ensures RowOf(core, x, o) == RowOf(core, y, p)
  {
    UploadsAgree(core, x, y);
    ReactionsAgree(x, o, y, p);
    StylesAgree(core, x, o, y, p);
    EqualParts(core, x, o, y, p);
  }

  /** Two builds of one message that compare as the same are the same row if and only if they agree
      beneath. */
  lemma SameMeansEqual(core: Core, x: Displayed, o: Options, y: Displayed, p: Options)
    requires SpansOk(core) && x.messageId == y.messageId
    requires ChatRowSame(RowOf(core, x, o), RowOf(core, y, p))
    ensures RowOf(core, x, o) == RowOf(core, y, p) <==> AgreesBeneath(core, x, o, y, p)
  {
    if AgreesBeneath(core, x, o, y, p) { AgreesThenEqual(core, x, o, y, p); }
    if RowOf(core, x, o) == RowOf(core, y, p) { EqualThenAgrees(core, x, o, y, p); }
  }

  /** A row of the list, built from `x` and filled since, that the synchroniser leaves alone is what a
      rebuild from `y` gives if and only if the two agree beneath; otherwise the list keeps a row that
      is out of date. */
  lemma KeptRowIsCurrent(core: Core, r: ChatRow, x: Displayed, o: Options, y: Displayed, p: Options)
    requires SpansOk(core) && x.messageId == y.messageId && AsBuilt(r) == RowOf(core, x, o)
    requires ChatRowSame(r, RowOf(core, y, p))
    ensures AsBuilt(r) == RowOf(core, y, p) <==> AgreesBeneath(core, x, o, y, p)
  {
    FillsDoNotMatter(r, RowOf(core, y, p));
    BuiltAsBuilt(core, y, p);
    SameMeansEqual(core, x, o, y, p);
  }

  ghost predicate MentionsOk(core: Core) {
    forall text, mentions :: AtSigns(text, core.mentionSpans(text, mentions))
  }

  /** With the same text on display, the markups are equal if and only if the same spans are tagged in
      the same colour; a colour is `#rrggbb`. */
  lemma MarkupsAgree(core: Core, x: Displayed, o: Options, y: Displayed, p: Options)
    requires SpansOk(core) && MentionsOk(core) && DisplayText(core, x) == DisplayText(core, y)
    requires |o.mentionColor| == |p.mentionColor| == 7
    ensures Markup(core, x, o) == Markup(core, y, p) <==> SameTags(core, x, o, y, p)
  {
    var text := DisplayText(core, x);
    assert Spanning(core.mentionSpans(text, x.mentions), 0, |text|);
    assert Spanning(core.mentionSpans(text, y.mentions), 0, |text|);
    MarkupDecides(text, SpansOf(core, x), o.mentionColor, SpansOf(core, y), p.mentionColor, 0);
  }

  /** So with the same spans and colour the row is current if and only if the rest agrees: nothing has
      to be built to tell. */
  lemma CurrentIfElsewhere(core: Core, r: ChatRow, x: Displayed, o: Options, y: Displayed, p: Options)
    requires SpansOk(core) && MentionsOk(core) && x.messageId == y.messageId && AsBuilt(r) == RowOf(core, x, o)
    requires ChatRowSame(r, RowOf(core, y, p))
    requires IsPlain(x) || (SameTags(core, x, o, y, p) && |o.mentionColor| == |p.mentionColor| == 7)
    ensures AsBuilt(r) == RowOf(core, y, p) <==> AgreesElsewhere(core, x, o, y, p)
  {
    KeptRowIsCurrent(core, r, x, o, y, p);
    assert RowOf(core, x, o).displayText == RowOf(core, y, p).displayText by {
      FillsDoNotMatter(r, RowOf(core, y, p));
    }
    if !IsPlain(x) { MarkupsAgree(core, x, o, y, p); }
  }

  lemma SameReactionRows(byEmoji: seq<(string, seq<string>)>, o: Options, p: Options)
    requires p.userId == o.userId && p.crewEmoji == o.crewEmoji
    ensures ReactionRows(byEmoji, o) == ReactionRows(byEmoji, p)
  {
  }

  lemma SameOptions(d: Displayed, o: Options, p: Options)
    requires p.userId == o.userId && p.reactions == o.reactions && p.crewEmoji == o.crewEmoji
    ensures ReactionsOf(d, o) == ReactionsOf(d, p)
  {
    if d.messageId in o.reactions { SameReactionRows(o.reactions[d.messageId], o, p); }
  }

  /** The user has a new picture: every row of their own compares as the same and keeps the old one. */
  lemma OwnPictureMissed(core: Core, d: Displayed, o: Options, picture: Picture)
    requires SpansOk(core) && d.senderId == o.userId && o.hasUserAvatar && picture != o.userAvatar
    ensures var p := o.(userAvatar := picture, avatars := o.avatars[o.userId := picture]);
            && ChatRowSame(RowOf(core, d, o), RowOf(core, d, p))
            && RowOf(core, d, o).senderAvatar == o.userAvatar && RowOf(core, d, p).senderAvatar == picture
  {
    SameOptions(d, o, o.(userAvatar := picture, avatars := o.avatars[o.userId := picture]));
  }

  /** A second edit that only says whom the same text mentions: the row compares as the same and keeps
      the old markup. */
  lemma MentionsMissed(core: Core, d: Displayed, mentions: seq<MentionRef>, o: Options)
    requires SpansOk(core) && !IsPlain(d) && Mentioned(mentions, o.userId) == Mentioned(d.mentions, o.userId)
    requires core.parseMarkdown(Markup(core, d, o)) != core.parseMarkdown(Markup(core, d.(mentions := mentions), o))
    ensures var e := d.(mentions := mentions);
            && ChatRowSame(RowOf(core, d, o), RowOf(core, e, o))
            && RowOf(core, d, o).displayStyled != RowOf(core, e, o).displayStyled
  {
    StylesAgree(core, d, o, d.(mentions := mentions), o);
  }

  // ----- the way around the comparison -----

  /** `update_chat_avatars_for_sender` (client/src/avatar.rs) on one row. */
  function WithAvatar(r: ChatRow, senderId: string, picture: Picture): ChatRow {
    if r.senderId == senderId then r.(senderAvatar := picture, hasSenderAvatar := true) else r
  }

  lemma SameStyle(core: Core, d: Displayed, o: Options, p: Options)
    requires SpansOk(core) && p.mentionColor == o.mentionColor
    ensures StyledOf(core, d, o) == StyledOf(core, d, p)
  {
  }

  const MAX_AVATARS := 64

  /** A new entry for a full cache drops one. */
  predicate Drops(cache: map<string, Picture>, key: string) { |cache| >= MAX_AVATARS && key !in cache }

  /** `cache_insert` (client/src/avatar.rs); `victim` is the key that the hash map happens to give. */
  function CacheInsert(cache: map<string, Picture>, key: string, picture: Picture, victim: string): map<string, Picture> {
    (if Drops(cache, key) then cache - {victim} else cache)[key := picture]
  }

  /** The picture is cached, the cache stays within 64, and no other entry is lost but the victim, for a
      new key when 64 are held. */
  lemma CacheHolds(cache: map<string, Picture>, key: string, picture: Picture, victim: string)
    requires |cache| <= 64 && (|cache| == 64 && key !in cache ==> victim in cache)
    ensures var after := CacheInsert(cache, key, picture, victim);
            && key in after && after[key] == picture && |after| <= 64
            && (forall k :: k in after && k != key ==> k in cache && after[k] == cache[k])
            && (forall k :: k in cache && k !in after ==> k == victim && |cache| == 64 && key !in cache)
  {
    var rest := if Drops(cache, key) then cache - {victim} else cache;
    assert rest.Keys == cache.Keys - if Drops(cache, key) then {victim} else {};
    assert rest[key := picture].Keys == rest.Keys + {key};
  }

  /** What a rebuild uses after a download (client/src/handlers/presence.rs). */
  function Downloaded(o: Options, senderId: string, picture: Picture, victim: string): Options {
    var cached := o.(avatars := CacheInsert(o.avatars, senderId, picture, victim));
    if senderId == o.userId then cached.(userAvatar := picture, hasUserAvatar := true) else cached
  }

  /** The download dropped the picture that this message's row was built with. */
  predicate LosesPicture(d: Displayed, o: Options, senderId: string, victim: string) {
    Drops(o.avatars, senderId) && d.senderId == victim && !(victim == o.userId && o.hasUserAvatar)
  }

  lemma AvatarAfter(d: Displayed, o: Options, senderId: string, picture: Picture, victim: string)
    requires Drops(o.avatars, senderId) ==> victim in o.avatars
    ensures AvatarOf(d, Downloaded(o, senderId, picture, victim))
            == if d.senderId == senderId then Some(picture)
               else if LosesPicture(d, o, senderId, victim) then None
               else AvatarOf(d, o)
    ensures LosesPicture(d, o, senderId, victim) ==> AvatarOf(d, o).Some? && d.senderId != senderId
  {
  }

  /** Only the picture of a row depends on the cache. */
  lemma RowAfter(core: Core, d: Displayed, o: Options, p: Options)
    requires SpansOk(core) && p.userId == o.userId && p.reactions == o.reactions && p.crewEmoji == o.crewEmoji
    requires p.mentionColor == o.mentionColor
    ensures var avatar := AvatarOf(d, p);
            RowOf(core, d, p)
            == RowOf(core, d, o).(senderAvatar := if avatar.Some? then avatar.value else NO_PICTURE,
                                  hasSenderAvatar := avatar.Some?)
  {
    SameStyle(core, d, o, p);
    SameOptions(d, o, p);
  }

  /** Patching the rows after a download gives what a rebuild gives, unless the full cache dropped the
      picture of the row's sender: the patch keeps that picture and the rebuild takes it away. */
  lemma PatchIsRebuild(core: Core, d: Displayed, o: Options, senderId: string, picture: Picture,
        victim: string)
    requires SpansOk(core) && (Drops(o.avatars, senderId) ==> victim in o.avatars)
    ensures WithAvatar(RowOf(core, d, o), senderId, picture)
            == RowOf(core, d, Downloaded(o, senderId, picture, victim))
            <==> !LosesPicture(d, o, senderId, victim)
  {
    AvatarAfter(d, o, senderId, picture, victim);
    RowAfter(core, d, o, Downloaded(o, senderId, picture, victim));
  }
}
