/**
 * The rows and the SQL statements of src/account/erased-sender-messages.ts.
 *
 * An uuid is a natural number ordered as Postgres orders it. The nil uuid is 0. A report names its
 * subject by text, so the text of an uuid keeps its spelling: `casing` 0 is the lower-case spelling
 * that `::text` prints, every other number is one of the spellings with upper-case digits.
 */
module MessageTables {
  import opened Wrappers
  import opened OrderedIds

  type Uuid = nat
  const NIL_UUID: Uuid := 0

  datatype SubjectText = UuidText(uuid: Uuid, casing: nat) | OtherText(text: string)

  /** `uuid::text`. */
  function TextOf(id: Uuid): SubjectText { UuidText(id, 0) }

  datatype ReportStatus = Open | Resolved | Escalated
  datatype SubjectType = MemberSubject | MessageSubject | OtherSubject(name: string)

  datatype Report = Report(
    subjectType: SubjectType,
    subject: SubjectText,
    status: ReportStatus,
    reporter: Option<Uuid>,
    reasonCode: string
  )

  datatype MessageKind = UserKind | SystemKind | GifKind | ImageKind | DocumentKind | StickerKind

  /** The jsonb attachment: the two keys a tombstone touches, and everything else. */
  datatype Attachment = Attachment(caption: Option<string>, fileName: Option<string>, rest: string)

  datatype Message = Message(
    conversation: Uuid,
    sender: Option<Uuid>,
    kind: MessageKind,
    body: string,
    deletedAt: Option<int>,
    replyTo: Option<Uuid>,
    forwarded: bool,
    attachment: Option<Attachment>,
    purgeAfter: Option<int>,
    heldFor: Option<Uuid>
  )

  type Messages = map<Uuid, Message>
  type Reports = map<Uuid, Report>
  /** (conversation, user) */
  type Participants = set<(Uuid, Uuid)>

  predicate Holding(status: ReportStatus) { status == Open || status == Escalated }

  // ------------------------------------------------------------- tombstones

  predicate CarriesOwnBytes(kind: MessageKind) { kind == ImageKind || kind == DocumentKind }

  function ScrubAttachment(attachment: Option<Attachment>, kind: MessageKind): Option<Attachment> {
    if attachment.None? || !CarriesOwnBytes(kind) then None
    else if attachment.value.fileName.Some? then
      Some(attachment.value.(caption := None, fileName := Some("")))
    else Some(attachment.value.(caption := None))
  }

  /** ERASED_SENDER_TOMBSTONE_ASSIGNMENTS_SQL at transaction time `now`. */
  function Tombstone(m: Message, now: int): Message {
    m.(deletedAt := if m.deletedAt.Some? then m.deletedAt else Some(now),
       body := "",
       replyTo := None,
       forwarded := false,
       heldFor := None,
       attachment := ScrubAttachment(m.attachment, m.kind),
       purgeAfter := if m.attachment.Some? && CarriesOwnBytes(m.kind) then Some(now) else m.purgeAfter)
  }

  /** What a reader of the row may rely on once it is a tombstone, whenever it became one. */
  predicate IsTombstone(m: Message) {
    && m.deletedAt.Some?
    && m.body == ""
    && m.replyTo.None?
    && !m.forwarded
    && m.heldFor.None?
    && (m.attachment.Some? ==>
          && CarriesOwnBytes(m.kind)
          && m.attachment.value.caption.None?
          && (m.attachment.value.fileName.Some? ==> m.attachment.value.fileName.value == "")
          && m.purgeAfter.Some?)
  }

  /** The statement applied to a set of rows. */
  function TombstoneRows(messages: Messages, ids: set<Uuid>, now: int): Messages {
    map id | id in messages :: if id in ids then Tombstone(messages[id], now) else messages[id]
  }

  // ---------------------------------------------------------------- re-key

  predicate IsTwin(twin: Report, report: Report, user: Uuid) {
    && twin.subjectType == MemberSubject
    && twin.subject == TextOf(user)
    && twin.status == Open
    && twin.reporter.Some?
    && twin.reporter == report.reporter
  }

  predicate HasOpenTwin(reports: Reports, report: Report, user: Uuid) {
    exists t | t in reports :: IsTwin(reports[t], report, user)
  }

  predicate RekeyMatches(reports: Reports, report: Report, user: Uuid, slug: SubjectText) {
    && report.subjectType == MemberSubject
    && report.subject == slug
    && !(report.status == Open && HasOpenTwin(reports, report, user))
  }

  /** REKEY_SLUG_MEMBER_REPORTS_SQL. */
  function Rekeyed(reports: Reports, user: Uuid, slug: SubjectText): Reports {
    map id | id in reports ::
      if RekeyMatches(reports, reports[id], user, slug)
      then reports[id].(subject := TextOf(user))
      else reports[id]
  }

  // ------------------------------------------------------------------- tie

  /** A holding report filed on one of the member's own messages of the conversation. */
  predicate TiesByMessage(report: Report, messages: Messages, user: Uuid, conversation: Uuid) {
    && report.subjectType == MessageSubject
    && Holding(report.status)
    && report.subject.UuidText?
    && report.subject.uuid in messages
    && messages[report.subject.uuid].sender == Some(user)
    && messages[report.subject.uuid].kind != SystemKind
    && messages[report.subject.uuid].conversation == conversation
  }

  /** A holding report naming the member as `subject`, filed by a participant of the conversation. */
  predicate TiesByMember(report: Report, participants: Participants, subject: SubjectText, conversation: Uuid) {
    && report.subjectType == MemberSubject
    && Holding(report.status)
    && report.subject == subject
    && report.reporter.Some?
    && (conversation, report.reporter.value) in participants
  }

  predicate Tied(messages: Messages, reports: Reports, participants: Participants, user: Uuid, conversation: Uuid) {
    exists r | r in reports ::
      || TiesByMessage(reports[r], messages, user, conversation)
      || TiesByMember(reports[r], participants, TextOf(user), conversation)
  }

  /** TIED_CONVERSATION_IDS_SQL: the UNION of both arms. */
  function TiedConversations(
      messages: Messages, reports: Reports, participants: Participants, user: Uuid): (ids: set<Uuid>)
    ensures forall c :: c in ids <==> Tied(messages, reports, participants, user, c)
  {
    var byMessage := set r, m | r in reports && m in messages
      && TiesByMessage(reports[r], messages, user, messages[m].conversation) :: messages[m].conversation;
    var byMember := set r, p | r in reports && p in participants
      && TiesByMember(reports[r], participants, TextOf(user), p.0) :: p.0;
    assert forall c :: c in byMessage <==> exists r | r in reports :: TiesByMessage(reports[r], messages, user, c) by {
      forall c, r | r in reports && TiesByMessage(reports[r], messages, user, c) ensures c in byMessage {
        assert messages[reports[r].subject.uuid].conversation == c;
      }
    }
    assert forall c :: c in byMember <==>
        exists r | r in reports :: TiesByMember(reports[r], participants, TextOf(user), c) by {
      forall c, r | r in reports && TiesByMember(reports[r], participants, TextOf(user), c) ensures c in byMember {
        assert (c, reports[r].reporter.value) in participants;
      }
    }
    byMessage + byMember
  }

  // ------------------------------------------------------------- mark held

  predicate WrittenBy(m: Message, user: Uuid) { m.sender == Some(user) && m.kind != SystemKind }

  /** MARK_HELD_MESSAGES_SQL. */
  function MarkedHeld(messages: Messages, user: Uuid, tied: set<Uuid>): Messages {
    map id | id in messages ::
      if WrittenBy(messages[id], user) && messages[id].conversation in tied
      then messages[id].(heldFor := Some(user))
      else messages[id]
  }

  // ------------------------------------------------------------- tombstone

  /** The rows the tombstone page reads: the member's own, not held. They still match once tombstoned. */
  function Unsettled(messages: Messages, user: Uuid): set<Uuid> {
    set id | id in messages && WrittenBy(messages[id], user) && messages[id].heldFor.None?
  }

  /** The ids TOMBSTONE_SENDER_MESSAGE_PAGE_SQL writes. */
  function TombstonePageIds(messages: Messages, user: Uuid, cursor: Uuid, limit: nat): set<Uuid> {
    Lowest(After(Unsettled(messages, user), cursor), limit)
  }

  // --------------------------------------------------------------- release

  /** The report holds the group of rows held for `former` in the conversation. */
  predicate HoldsGroup(
      report: Report, messages: Messages, participants: Participants, former: Uuid, conversation: Uuid)
  {
    && Holding(report.status)
    && (|| (&& report.subjectType == MessageSubject
            && exists s | s in messages ::
                 && TextOf(s) == report.subject
                 && messages[s].heldFor == Some(former)
                 && messages[s].conversation == conversation)
        || (&& report.subjectType == MemberSubject
            && report.subject == TextOf(former)
            && report.reporter.Some?
            && (conversation, report.reporter.value) in participants))
  }

  predicate GroupTied(
      messages: Messages, reports: Reports, participants: Participants, former: Uuid, conversation: Uuid)
  {
    exists r | r in reports :: HoldsGroup(reports[r], messages, participants, former, conversation)
  }

  /** The held rows whose group no report holds any more. */
  function UntiedHeld(messages: Messages, reports: Reports, participants: Participants): set<Uuid> {
    set id | id in messages
          && messages[id].heldFor.Some?
          && !GroupTied(messages, reports, participants, messages[id].heldFor.value, messages[id].conversation)
  }

  // --------------------------------------------- the other statements of the erasure transaction

  /** `UPDATE reports SET reporter_id = NULL WHERE reporter_id = $1`. */
  function Severed(reports: Reports, user: Uuid): Reports {
    map id | id in reports ::
      if reports[id].reporter == Some(user) then reports[id].(reporter := None) else reports[id]
  }

  /** `messages.sender_id` is ON DELETE SET NULL. */
  function Anonymised(messages: Messages, user: Uuid): Messages {
    map id | id in messages ::
      if messages[id].sender == Some(user) then messages[id].(sender := None) else messages[id]
  }

  /** `conversation_participants.user_id` is ON DELETE CASCADE. */
  function WithoutSeats(participants: Participants, user: Uuid): Participants {
    set p | p in participants && p.1 != user
  }

  lemma {:induction false} TombstoneIsTombstone(m: Message, now: int)
    ensures IsTombstone(Tombstone(m, now))
    ensures Tombstone(m, now).conversation == m.conversation
    ensures Tombstone(m, now).sender == m.sender
    ensures Tombstone(m, now).kind == m.kind
    ensures m.deletedAt.Some? ==> Tombstone(m, now).deletedAt == m.deletedAt
  {
  }

  /**
   * What is left of a row: who, where, when and of which kind. The bytes of an image or a document stay
   * addressed and are queued for the purge at once; any other attachment goes, and its row is not queued.
   */
  lemma {:induction false} TombstoneLeaves(m: Message, now: int)
    ensures var after := Tombstone(m, now);
            && after.sender == m.sender && after.conversation == m.conversation && after.kind == m.kind
            && after.deletedAt == (if m.deletedAt.Some? then m.deletedAt else Some(now))
            && after.body == "" && after.replyTo.None? && !after.forwarded && after.heldFor.None?
            && (m.kind in {ImageKind, DocumentKind} && m.attachment.Some? ==>
                  && after.attachment.Some? && after.attachment.value.rest == m.attachment.value.rest
                  && after.attachment.value.caption.None?
                  && after.attachment.value.fileName
                     == (if m.attachment.value.fileName.Some? then Some("") else None)
                  && after.purgeAfter == Some(now))
            && (m.kind !in {ImageKind, DocumentKind} || m.attachment.None? ==>
                  after.attachment.None? && after.purgeAfter == m.purgeAfter)
  {
  }
}
