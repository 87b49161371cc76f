/** Search keys, the criteria they are compiled to, and how much of a message they need. The
    requirement of a key and the reading of its criterion are two independent tables. */
module SearchCriteria {
  import opened Collections
  import Flags
  import opened SequenceSets

  // ----- Keys

  datatype SearchKey = SearchKey(value: KeyValue, inverse: bool)

  /** The keys with a structure of their own, and all others by name with their argument. */
  datatype KeyValue =
    | All
    | SeqSet(seqSet: SequenceSet)
    | KeySet(keys: seq<SearchKey>)
    | Or(left: SearchKey, right: SearchKey)
    | Named(name: Name, filter: Filter)

  datatype Name =
    | EMAILID | THREADID
    | ANSWERED | UNANSWERED | DELETED | UNDELETED | DRAFT | UNDRAFT | FLAGGED | UNFLAGGED
    | RECENT | OLD | SEEN | UNSEEN | KEYWORD | UNKEYWORD | NEW
    | BEFORE | ON | SINCE | SENTBEFORE | SENTON | SENTSINCE
    | SMALLER | LARGER
    | BCC | CC | FROM | SUBJECT | TO | HEADER
    | BODY | TEXT
    | UNKNOWN(text: string)

  datatype Filter =
    | NoFilter
    | IdFilter(id: int)
    | FlagFilter(flag: Flags.Flag)
    | DateFilter(when: int)
    | NumberFilter(number: int)
    | TextFilter(text: string)
    | FieldFilter(field: string, text: string)

  /** The name by which a key is disabled. */
  datatype KeyName = ALL | SEQSET | KEYSET | OR | Simple(name: Name)

  function NameOf(value: KeyValue): KeyName {
    match value
    case All => ALL
    case SeqSet(_) => SEQSET
    case KeySet(_) => KEYSET
    case Or(_, _) => OR
    case Named(name, _) => Simple(name)
  }

  // ----- Requirements, by the names of keys

  datatype Requirement = Requirement(metadata: bool, header: bool, body: bool)

  const NOTHING: Requirement := Requirement(false, false, false)
  const METADATA: Requirement := Requirement(true, false, false)
  const ENVELOPE: Requirement := Requirement(false, true, false)
  const CONTENT: Requirement := Requirement(false, true, true)

  function Both(a: Requirement, b: Requirement): Requirement {
    Requirement(a.metadata || b.metadata, a.header || b.header, a.body || b.body)
  }

  function RequiredByName(name: Name): Requirement {
    if name in {SENTBEFORE, SENTON, SENTSINCE, BCC, CC, FROM, SUBJECT, TO, HEADER} then ENVELOPE
    else if name in {BODY, TEXT, LARGER, SMALLER} then CONTENT
    else METADATA
  }

  function Required(key: SearchKey): Requirement
    decreases key
  {
    match key.value
    case All => NOTHING
    case KeySet(keys) => RequiredAll(keys)
    case Or(left, right) => Both(Required(left), Required(right))
    case SeqSet(_) => METADATA
    case Named(name, _) => RequiredByName(name)
  }

  function RequiredAll(keys: seq<SearchKey>): Requirement
    decreases keys
  {
    if keys == [] then NOTHING else Both(Required(keys[0]), RequiredAll(keys[1..]))
  }

  /** A list of keys requires what one of its keys requires. */
  lemma {:induction false} RequiredOfAny(keys: seq<SearchKey>)
    ensures RequiredAll(keys).metadata <==> exists i :: 0 <= i < |keys| && Required(keys[i]).metadata
    ensures RequiredAll(keys).header <==> exists i :: 0 <= i < |keys| && Required(keys[i]).header
    ensures RequiredAll(keys).body <==> exists i :: 0 <= i < |keys| && Required(keys[i]).body
  {
    if keys != [] {
      RequiredOfAny(keys[1..]);
      assert forall i :: 0 < i < |keys| ==> keys[i] == keys[1..][i - 1];
    }
  }

  // ----- Messages and what is loaded of them

  /** The parsed header: the day of its `Date:`, its addresses and subject, and all values by the
      lower-case name of the field. `size` is the size of a content that is this header alone. */
  datatype Header = Header(
    raw: string, size: int, date: Option<int>, bcc: seq<string>, cc: seq<string>, from: seq<string>, to: seq<string>,
    subject: Option<string>, values: map<string, seq<string>>)

  /** One of the parts that a walk through the message meets, the message itself first. */
  datatype Part = Part(header: string, isText: bool, body: string)

  datatype Whole = Whole(header: Header, size: int, parts: seq<Part>)

  datatype Stored = Stored(
    uid: int, emailId: Option<int>, threadId: int, flags: set<Flags.Flag>, internalDate: Option<int>,
    content: Option<Whole>)

  /** A loaded message: without content, with its header alone, or with all of it. */
  datatype Loaded = NoContent | HeaderOnly(header: Header) | Full(whole: Whole)

  datatype Backend = InMemory | Maildir | Redis

  function Load(backend: Backend, msg: Stored, requirement: Requirement): Loaded {
    if msg.content.None? then NoContent
    else
      match backend
      case InMemory => Full(msg.content.value)
      case Maildir => if requirement.header || requirement.body then Full(msg.content.value) else NoContent
      case Redis =>
        if requirement.body then Full(msg.content.value)
        else if requirement.header then HeaderOnly(msg.content.value.header)
        else NoContent
  }

  function LoadFully(msg: Stored): Loaded {
    if msg.content.None? then NoContent else Full(msg.content.value)
  }

  const EMPTY_HEADER: Header := Header("", 0, None, [], [], [], [], None, map[])

  function HeaderOf(loaded: Loaded): Header {
    match loaded
    case NoContent => EMPTY_HEADER
    case HeaderOnly(header) => header
    case Full(whole) => whole.header
  }

  function SizeOf(loaded: Loaded): int {
    match loaded
    case NoContent => 0
    case HeaderOnly(header) => header.size
    case Full(whole) => whole.size
  }

  function PartsOf(loaded: Loaded): seq<Part> {
    match loaded
    case NoContent => []
    case HeaderOnly(header) => [Part(header.raw, true, "")]
    case Full(whole) => whole.parts
  }

  // ----- Texts

  function LowerChar(c: char): char {
    if 'A' <= c <= 'Z' then c + (32 as char) else c
  }

  function Lower(s: string): string {
    seq(|s|, i requires 0 <= i < |s| => LowerChar(s[i]))
  }

  /** Whether `text` occurs in `data`, in whatever ASCII case. */
  predicate OccursIn(text: string, data: string) {
    exists i :: 0 <= i <= |data| - |text| && OccursAt(text, data, i)
  }

  predicate OccursAt(text: string, data: string, i: nat) {
    i + |text| <= |data| && Lower(data[i..i + |text|]) == Lower(text)
  }

  predicate OccursInAny(text: string, all: seq<string>) {
    exists i :: 0 <= i < |all| && OccursIn(text, all[i])
  }

  predicate OccursInParts(text: string, parts: seq<Part>) {
    exists i :: 0 <= i < |parts| &&
      (OccursIn(text, parts[i].header) || (parts[i].isText && OccursIn(text, parts[i].body)))
  }

  predicate SameLetter(c: char, d: char) {
    c == d || ('A' <= c <= 'Z' && d == c + (32 as char)) || ('A' <= d <= 'Z' && c == d + (32 as char))
  }

  /** A text occurs where each of its characters stands, in either case if it is an ASCII letter. */
  lemma OccursExactly(text: string, data: string)
    ensures OccursIn(text, data) <==>
            exists i: nat :: i + |text| <= |data| && SameAt(text, data, i)
  {
    if i: nat :| i <= |data| - |text| && OccursAt(text, data, i) {
      SameIsLower(text, data, i);
    }
    if i: nat :| i + |text| <= |data| && SameAt(text, data, i) {
      SameIsLower(text, data, i);
      assert 0 <= i <= |data| - |text| && OccursAt(text, data, i);
    }
  }

  ghost predicate SameAt(text: string, data: string, i: nat)
    requires i + |text| <= |data|
  {
    forall k :: 0 <= k < |text| ==> SameLetter(text[k], data[i + k])
  }

  lemma SameIsLower(text: string, data: string, i: nat)
    requires i + |text| <= |data|
    ensures SameAt(text, data, i) <==> OccursAt(text, data, i)
  {
    var here := data[i..i + |text|];
    forall k | 0 <= k < |text| ensures SameLetter(text[k], data[i + k]) <==> Lower(here)[k] == Lower(text)[k] {
      assert here[k] == data[i + k];
    }
  }

  predicate IsAscii(s: string) {
    forall i :: 0 <= i < |s| ==> s[i] < 128 as char
  }

  // ----- Criteria

  /** `encode` turns a text into the bytes that are looked for in a body. */
  datatype Params = Params(
    maxSeq: int, maxUid: int, disabled: set<KeyName>, sessionFlags: map<int, set<Flags.Flag>>, recent: set<int>,
    encode: string -> string)

  datatype DateOp = Earlier | SameDay | NotEarlier

  datatype SizeOp = Below | Above

  datatype Field = Bcc | Cc | From | Subject | To

  datatype Criteria =
    | AllCriteria
    | InverseCriteria(key: Criteria)
    | SequenceSetCriteria(seqSet: SequenceSet, flat: set<int>)
    | CriteriaSet(all: seq<Criteria>)
    | OrCriteria(left: Criteria, right: Criteria)
    | HasEmailId(emailId: int)
    | HasThreadId(threadId: int)
    | HasFlag(flag: Flags.Flag, expected: bool)
    | IsNew
    | InternalDate(when: int, dateOp: DateOp)
    | HeaderDate(when: int, dateOp: DateOp)
    | HasSize(size: int, sizeOp: SizeOp)
    | InEnvelope(envelopeField: Field, text: string)
    | InHeader(headerName: string, text: string)
    | InBody(bytes: string)

  datatype SearchError =
    | SearchNotAllowed(key: SearchKey)
    | WrongFilter(filter: Filter)
    | NotAscii(text: string)

  function Of(key: SearchKey, params: Params): Result<Criteria, SearchError>
    decreases key, 1
  {
    if NameOf(key.value) in params.disabled then Failure(SearchNotAllowed(key))
    else if key.inverse then
      match OfValue(key, params)
      case Failure(e) => Failure(e)
      case Success(c) => Success(InverseCriteria(c))
    else OfValue(key, params)
  }

  /** The criteria of the key without its inversion. */
  function OfValue(key: SearchKey, params: Params): Result<Criteria, SearchError>
    decreases key, 0
  {
    match key.value
    case All => Success(AllCriteria)
    case SeqSet(s) => Success(SequenceSetCriteria(s, Flatten(s, if s.uid then params.maxUid else params.maxSeq)))
    case KeySet(keys) => (
      match OfAll(keys, params)
      case Failure(e) => Failure(e)
      case Success(all) => Success(CriteriaSet(all)))
    case Or(left, right) => (
      match Of(left, params)
      case Failure(e) => Failure(e)
      case Success(l) =>
        match Of(right, params)
        case Failure(e) => Failure(e)
        case Success(r) => Success(OrCriteria(l, r)))
    case Named(name, filter) => OfName(name, filter, params)
  }

  function OfAll(keys: seq<SearchKey>, params: Params): (r: Result<seq<Criteria>, SearchError>)
    ensures r.Success? ==> |r.value| == |keys|
    ensures r.Success? ==> forall i :: 0 <= i < |keys| ==> Of(keys[i], params) == Success(r.value[i])
    decreases keys
  {
    if keys == [] then Success([])
    else
      match Of(keys[0], params)
      case Failure(e) => Failure(e)
      case Success(c) =>
        match OfAll(keys[1..], params)
        case Failure(e) => Failure(e)
        case Success(all) => Success([c] + all)
  }

  function OfName(name: Name, filter: Filter, params: Params): Result<Criteria, SearchError> {
    match name
    case EMAILID => if filter.IdFilter? then Success(HasEmailId(filter.id)) else Failure(WrongFilter(filter))
    case THREADID => if filter.IdFilter? then Success(HasThreadId(filter.id)) else Failure(WrongFilter(filter))
    case ANSWERED => Success(HasFlag(Flags.Answered, true))
    case UNANSWERED => Success(HasFlag(Flags.Answered, false))
    case DELETED => Success(HasFlag(Flags.Deleted, true))
    case UNDELETED => Success(HasFlag(Flags.Deleted, false))
    case DRAFT => Success(HasFlag(Flags.Draft, true))
    case UNDRAFT => Success(HasFlag(Flags.Draft, false))
    case FLAGGED => Success(HasFlag(Flags.Flagged, true))
    case UNFLAGGED => Success(HasFlag(Flags.Flagged, false))
    case RECENT => Success(HasFlag(Flags.Recent, true))
    case OLD => Success(HasFlag(Flags.Recent, false))
    case SEEN => Success(HasFlag(Flags.Seen, true))
    case UNSEEN => Success(HasFlag(Flags.Seen, false))
    case KEYWORD => if filter.FlagFilter? then Success(HasFlag(filter.flag, true)) else Failure(WrongFilter(filter))
    case UNKEYWORD => if filter.FlagFilter? then Success(HasFlag(filter.flag, false)) else Failure(WrongFilter(filter))
    case NEW => Success(IsNew)
    case BEFORE => OfDate(filter, Earlier, false)
    case ON => OfDate(filter, SameDay, false)
    case SINCE => OfDate(filter, NotEarlier, false)
    case SENTBEFORE => OfDate(filter, Earlier, true)
    case SENTON => OfDate(filter, SameDay, true)
    case SENTSINCE => OfDate(filter, NotEarlier, true)
    case SMALLER => OfSize(filter, Below)
    case LARGER => OfSize(filter, Above)
    case BCC => OfField(filter, Bcc)
    case CC => OfField(filter, Cc)
    case FROM => OfField(filter, From)
    case SUBJECT => OfField(filter, Subject)
    case TO => OfField(filter, To)
    case HEADER =>
      if !filter.FieldFilter? then Failure(WrongFilter(filter))
      else if !IsAscii(filter.field) then Failure(NotAscii(filter.field))
      else Success(InHeader(filter.field, filter.text))
    case BODY => OfBody(filter, params)
    case TEXT => OfBody(filter, params)
    case UNKNOWN(_) => Failure(SearchNotAllowed(SearchKey(Named(name, filter), false)))
  }

  function OfDate(filter: Filter, op: DateOp, ofHeader: bool): Result<Criteria, SearchError> {
    if !filter.DateFilter? then Failure(WrongFilter(filter))
    else Success(if ofHeader then HeaderDate(filter.when, op) else InternalDate(filter.when, op))
  }

  function OfSize(filter: Filter, op: SizeOp): Result<Criteria, SearchError> {
    if filter.NumberFilter? then Success(HasSize(filter.number, op)) else Failure(WrongFilter(filter))
  }

  function OfField(filter: Filter, field: Field): Result<Criteria, SearchError> {
    if filter.TextFilter? then Success(InEnvelope(field, filter.text)) else Failure(WrongFilter(filter))
  }

  function OfBody(filter: Filter, params: Params): Result<Criteria, SearchError> {
    if filter.TextFilter? then Success(InBody(params.encode(filter.text))) else Failure(WrongFilter(filter))
  }

  // ----- Refusals

  /** The argument that a name must come with. */
  predicate Fits(name: Name, filter: Filter) {
    match name
    case EMAILID => filter.IdFilter?
    case THREADID => filter.IdFilter?
    case KEYWORD => filter.FlagFilter?
    case UNKEYWORD => filter.FlagFilter?
    case SMALLER => filter.NumberFilter?
    case LARGER => filter.NumberFilter?
    case HEADER => filter.FieldFilter? && forall i :: 0 <= i < |filter.field| ==> filter.field[i] < 128 as char
    case UNKNOWN(_) => false
    case _ =>
      (name in {BEFORE, ON, SINCE, SENTBEFORE, SENTON, SENTSINCE} ==> filter.DateFilter?) &&
      (name in {BCC, CC, FROM, SUBJECT, TO, BODY, TEXT} ==> filter.TextFilter?)
  }

  /** No key in it is disabled, at any depth, and each has the argument that its name needs. */
  predicate Allowed(key: SearchKey, disabled: set<KeyName>)
    decreases key
  {
    match key.value
    case All => ALL !in disabled
    case SeqSet(_) => SEQSET !in disabled
    case KeySet(keys) => KEYSET !in disabled && forall i :: 0 <= i < |keys| ==> Allowed(keys[i], disabled)
    case Or(left, right) => OR !in disabled && Allowed(left, disabled) && Allowed(right, disabled)
    case Named(name, filter) => Simple(name) !in disabled && Fits(name, filter)
  }

  lemma NameFits(name: Name, filter: Filter, params: Params)
    ensures OfName(name, filter, params).Success? <==> Fits(name, filter)
  {
  }

  /** A key is compiled exactly if it is allowed. */
  lemma {:induction false} OfAllowed(key: SearchKey, params: Params)
    ensures Of(key, params).Success? <==> Allowed(key, params.disabled)
    decreases key, 1
  {
    match key.value
    case KeySet(keys) => OfAllAllowed(keys, params);
    case Or(left, right) =>
      OfAllowed(left, params);
      OfAllowed(right, params);
    case Named(name, filter) => NameFits(name, filter, params);
    case _ =>
  }

  lemma {:induction false} OfAllAllowed(keys: seq<SearchKey>, params: Params)
    ensures OfAll(keys, params).Success? <==> forall i :: 0 <= i < |keys| ==> Allowed(keys[i], params.disabled)
    decreases keys, 0
  {
    if keys != [] {
      OfAllowed(keys[0], params);
      OfAllAllowed(keys[1..], params);
      assert forall i :: 0 < i < |keys| ==> keys[i] == keys[1..][i - 1];
    }
  }

  // ----- Matching: each criterion reads its own part

  function FlagsOf(params: Params, msg: Stored): set<Flags.Flag> {
    msg.flags + Flags.SessionFlagsOf(params.sessionFlags, params.recent, msg.uid)
  }

  predicate DateMatches(date: Option<int>, op: DateOp, when: int) {
    match date
    case None => false
    case Some(day) =>
      match op
      case Earlier => day < when
      case SameDay => day == when
      case NotEarlier => when <= day
  }

  predicate EnvelopeMatches(header: Header, field: Field, text: string) {
    match field
    case Bcc => OccursInAny(text, header.bcc)
    case Cc => OccursInAny(text, header.cc)
    case From => OccursInAny(text, header.from)
    case To => OccursInAny(text, header.to)
    case Subject => header.subject.Some? && header.subject.value != "" && OccursIn(text, header.subject.value)
  }

  predicate Matches(c: Criteria, params: Params, seqNum: int, msg: Stored, loaded: Loaded)
    decreases c
  {
    match c
    case AllCriteria => true
    case InverseCriteria(key) => !Matches(key, params, seqNum, msg, loaded)
    case SequenceSetCriteria(s, flat) => (if s.uid then msg.uid else seqNum) in flat
    case CriteriaSet(all) => MatchesAll(all, params, seqNum, msg, loaded)
    case OrCriteria(left, right) =>
      Matches(left, params, seqNum, msg, loaded) || Matches(right, params, seqNum, msg, loaded)
    case HasEmailId(emailId) => msg.emailId == Some(emailId)
    case HasThreadId(threadId) => msg.threadId == threadId
    case HasFlag(flag, expected) => (flag in FlagsOf(params, msg)) == expected
    case IsNew => Flags.Recent in FlagsOf(params, msg) && Flags.Seen !in FlagsOf(params, msg)
    case InternalDate(when, op) => DateMatches(msg.internalDate, op, when)
    case HeaderDate(when, op) => DateMatches(HeaderOf(loaded).date, op, when)
    case HasSize(size, op) => if op == Below then SizeOf(loaded) < size else SizeOf(loaded) > size
    case InEnvelope(field, text) => EnvelopeMatches(HeaderOf(loaded), field, text)
    case InHeader(name, text) =>
      Lower(name) in HeaderOf(loaded).values && OccursInAny(text, HeaderOf(loaded).values[Lower(name)])
    case InBody(bytes) => OccursInParts(bytes, PartsOf(loaded))
  }

  predicate MatchesAll(all: seq<Criteria>, params: Params, seqNum: int, msg: Stored, loaded: Loaded)
    decreases all
  {
    all == [] ||
    (Matches(all[0], params, seqNum, msg, loaded) && MatchesAll(all[1..], params, seqNum, msg, loaded))
  }

  // ----- What a key means

  predicate OccursInSome(text: string, all: seq<string>) {
    exists i :: 0 <= i < |all| && OccursIn(text, all[i])
  }

  /** In the header of some part, or in the body of one that is text. */
  predicate OccursInMessage(bytes: string, parts: seq<Part>) {
    || (exists i :: 0 <= i < |parts| && OccursIn(bytes, parts[i].header))
    || (exists i :: 0 <= i < |parts| && parts[i].isText && OccursIn(bytes, parts[i].body))
  }

  /** What a named key says of a message whose whole content is known: of its flags, those of the session
      included, and of its header and parts, which are empty if it has no content. */
  predicate Says(name: Name, filter: Filter, params: Params, msg: Stored) {
    var own := if msg.uid in params.sessionFlags then params.sessionFlags[msg.uid] else {};
    var flags := msg.flags + own + if msg.uid in params.recent then {Flags.Recent} else {};
    var Whole(header, size, parts) :=
      if msg.content.Some? then msg.content.value else Whole(Header("", 0, None, [], [], [], [], None, map[]), 0, []);
    var date, sent := msg.internalDate, header.date;
    match name
    case EMAILID => filter.IdFilter? && msg.emailId == Some(filter.id)
    case THREADID => filter.IdFilter? && msg.threadId == filter.id
    case ANSWERED => Flags.Answered in flags
    case UNANSWERED => Flags.Answered !in flags
    case DELETED => Flags.Deleted in flags
    case UNDELETED => Flags.Deleted !in flags
    case DRAFT => Flags.Draft in flags
    case UNDRAFT => Flags.Draft !in flags
    case FLAGGED => Flags.Flagged in flags
    case UNFLAGGED => Flags.Flagged !in flags
    case RECENT => Flags.Recent in flags
    case OLD => Flags.Recent !in flags
    case SEEN => Flags.Seen in flags
    case UNSEEN => Flags.Seen !in flags
    case KEYWORD => filter.FlagFilter? && filter.flag in flags
    case UNKEYWORD => filter.FlagFilter? && filter.flag !in flags
    case NEW => Flags.Recent in flags && Flags.Seen !in flags
    case BEFORE => filter.DateFilter? && date.Some? && date.value < filter.when
    case ON => filter.DateFilter? && date == Some(filter.when)
    case SINCE => filter.DateFilter? && date.Some? && date.value >= filter.when
    case SENTBEFORE => filter.DateFilter? && sent.Some? && sent.value < filter.when
    case SENTON => filter.DateFilter? && sent == Some(filter.when)
    case SENTSINCE => filter.DateFilter? && sent.Some? && sent.value >= filter.when
    case SMALLER => filter.NumberFilter? && size < filter.number
    case LARGER => filter.NumberFilter? && size > filter.number
    case BCC => filter.TextFilter? && OccursInSome(filter.text, header.bcc)
    case CC => filter.TextFilter? && OccursInSome(filter.text, header.cc)
    case FROM => filter.TextFilter? && OccursInSome(filter.text, header.from)
    case TO => filter.TextFilter? && OccursInSome(filter.text, header.to)
    case SUBJECT =>
      && filter.TextFilter? && header.subject.Some? && header.subject.value != ""
      && OccursIn(filter.text, header.subject.value)
    case HEADER =>
      && filter.FieldFilter? && Lower(filter.field) in header.values
      && OccursInSome(filter.text, header.values[Lower(filter.field)])
    case BODY => filter.TextFilter? && OccursInMessage(params.encode(filter.text), parts)
    case TEXT => filter.TextFilter? && OccursInMessage(params.encode(filter.text), parts)
    case UNKNOWN(_) => false
  }

  /** Whether a message satisfies a key, its whole content being known. */
  predicate Holds(key: SearchKey, params: Params, seqNum: int, msg: Stored)
    decreases key
  {
    var direct :=
      match key.value
      case All => true
      case SeqSet(s) =>
        if s.uid then msg.uid in Flatten(s, params.maxUid) else seqNum in Flatten(s, params.maxSeq)
      case KeySet(keys) => forall i :: 0 <= i < |keys| ==> Holds(keys[i], params, seqNum, msg)
      case Or(left, right) => Holds(left, params, seqNum, msg) || Holds(right, params, seqNum, msg)
      case Named(name, filter) => Says(name, filter, params, msg);
    direct != key.inverse
  }

  predicate HoldAll(keys: seq<SearchKey>, params: Params, seqNum: int, msg: Stored) {
    forall i :: 0 <= i < |keys| ==> Holds(keys[i], params, seqNum, msg)
  }

  lemma {:induction false} MatchesEach(all: seq<Criteria>, params: Params, seqNum: int, msg: Stored, loaded: Loaded)
    ensures MatchesAll(all, params, seqNum, msg, loaded) <==>
            forall i :: 0 <= i < |all| ==> Matches(all[i], params, seqNum, msg, loaded)
  {
    if all != [] {
      MatchesEach(all[1..], params, seqNum, msg, loaded);
      assert forall i :: 0 < i < |all| ==> all[i] == all[1..][i - 1];
    }
  }

  predicate OfFlags(name: Name) {
    name in {ANSWERED, UNANSWERED, DELETED, UNDELETED, DRAFT, UNDRAFT, FLAGGED, UNFLAGGED, RECENT, OLD, SEEN, UNSEEN,
             KEYWORD, UNKEYWORD, NEW}
  }

  predicate OfDates(name: Name) {
    name in {BEFORE, ON, SINCE, SENTBEFORE, SENTON, SENTSINCE}
  }

  lemma FlagNameMatches(name: Name, filter: Filter, params: Params, c: Criteria, seqNum: int, msg: Stored)
    requires OfName(name, filter, params) == Success(c) && OfFlags(name)
    ensures Matches(c, params, seqNum, msg, LoadFully(msg)) <==> Says(name, filter, params, msg)
  {
  }

  lemma DateNameMatches(name: Name, filter: Filter, params: Params, c: Criteria, seqNum: int, msg: Stored)
    requires OfName(name, filter, params) == Success(c) && OfDates(name)
    ensures Matches(c, params, seqNum, msg, LoadFully(msg)) <==> Says(name, filter, params, msg)
  {
  }

  lemma TextNameMatches(name: Name, filter: Filter, params: Params, c: Criteria, seqNum: int, msg: Stored)
    requires OfName(name, filter, params) == Success(c) && !OfFlags(name) && !OfDates(name)
    ensures Matches(c, params, seqNum, msg, LoadFully(msg)) <==> Says(name, filter, params, msg)
  {
  }

  /** On the whole content, the criterion of a name decides what the name says. */
  lemma NameMatches(name: Name, filter: Filter, params: Params, c: Criteria, seqNum: int, msg: Stored)
    requires OfName(name, filter, params) == Success(c)
    ensures Matches(c, params, seqNum, msg, LoadFully(msg)) <==> Says(name, filter, params, msg)
  {
    if OfFlags(name) {
      FlagNameMatches(name, filter, params, c, seqNum, msg);
    } else if OfDates(name) {
      DateNameMatches(name, filter, params, c, seqNum, msg);
    } else {
      TextNameMatches(name, filter, params, c, seqNum, msg);
    }
  }

  /** On the whole content, a compiled criterion decides what its key means. */
  lemma {:induction false} WholeMatches(key: SearchKey, params: Params, c: Criteria, seqNum: int, msg: Stored)
    requires Of(key, params) == Success(c)
    ensures Matches(c, params, seqNum, msg, LoadFully(msg)) <==> Holds(key, params, seqNum, msg)
    decreases key, 1
  {
    var direct := if key.inverse then c.key else c;
    match key.value
    case All =>
    case SeqSet(_) =>
    case KeySet(keys) => WholeMatchesAll(keys, params, direct.all, seqNum, msg);
    case Or(left, right) =>
      WholeMatches(left, params, direct.left, seqNum, msg);
      WholeMatches(right, params, direct.right, seqNum, msg);
    case Named(name, filter) => NameMatches(name, filter, params, direct, seqNum, msg);
  }

  lemma {:induction false} WholeMatchesAll(
    keys: seq<SearchKey>, params: Params, all: seq<Criteria>, seqNum: int, msg: Stored)
    requires OfAll(keys, params) == Success(all)
    ensures MatchesAll(all, params, seqNum, msg, LoadFully(msg)) <==> HoldAll(keys, params, seqNum, msg)
    decreases keys, 0
  {
    forall i | 0 <= i < |keys|
      ensures Matches(all[i], params, seqNum, msg, LoadFully(msg)) <==> Holds(keys[i], params, seqNum, msg)
    {
      WholeMatches(keys[i], params, all[i], seqNum, msg);
    }
    MatchesEach(all, params, seqNum, msg, LoadFully(msg));
  }

  // ----- What a criterion reads

  /** The reading table: what the criterion itself looks at. */
  function Reads(c: Criteria): Requirement
    decreases c
  {
    match c
    case AllCriteria => NOTHING
    case InverseCriteria(key) => Reads(key)
    case SequenceSetCriteria(s, _) => Requirement(s.uid, false, false)
    case CriteriaSet(all) => ReadsAll(all)
    case OrCriteria(left, right) => Both(Reads(left), Reads(right))
    case HasEmailId(_) => METADATA
    case HasThreadId(_) => METADATA
    case HasFlag(_, _) => METADATA
    case IsNew => METADATA
    case InternalDate(_, _) => METADATA
    case HeaderDate(_, _) => ENVELOPE
    case InEnvelope(_, _) => ENVELOPE
    case InHeader(_, _) => ENVELOPE
    case HasSize(_, _) => CONTENT
    case InBody(_) => CONTENT
  }

  function ReadsAll(all: seq<Criteria>): Requirement
    decreases all
  {
    if all == [] then NOTHING else Both(Reads(all[0]), ReadsAll(all[1..]))
  }

  /** Enough has been loaded: the true header if one is asked for, everything if the body is. */
  predicate Provides(loaded: Loaded, msg: Stored, requirement: Requirement) {
    && (requirement.header || requirement.body ==> HeaderOf(loaded) == HeaderOf(LoadFully(msg)))
    && (requirement.body ==> loaded == LoadFully(msg))
  }

  predicate Covers(a: Requirement, b: Requirement) {
    (b.header ==> a.header || a.body) && (b.body ==> a.body)
  }

  /** Every backend loads what is required of it. */
  lemma LoadProvides(backend: Backend, msg: Stored, requirement: Requirement, less: Requirement)
    requires Covers(requirement, less)
    ensures Provides(Load(backend, msg, requirement), msg, less)
  {
  }

  /** A criterion that is given what it reads decides as it would on the whole content. */
  lemma {:induction false} ReadsEnough(c: Criteria, params: Params, seqNum: int, msg: Stored, loaded: Loaded)
    requires Provides(loaded, msg, Reads(c))
    ensures Matches(c, params, seqNum, msg, loaded) <==> Matches(c, params, seqNum, msg, LoadFully(msg))
    decreases c, 1
  {
    match c
    case InverseCriteria(key) => ReadsEnough(key, params, seqNum, msg, loaded);
    case CriteriaSet(all) => ReadsEnoughAll(all, params, seqNum, msg, loaded);
    case OrCriteria(left, right) =>
      ReadsEnough(left, params, seqNum, msg, loaded);
      ReadsEnough(right, params, seqNum, msg, loaded);
    case _ =>
  }

  lemma {:induction false} ReadsEnoughAll(all: seq<Criteria>, params: Params, seqNum: int, msg: Stored, loaded: Loaded)
    requires Provides(loaded, msg, ReadsAll(all))
    ensures MatchesAll(all, params, seqNum, msg, loaded) <==> MatchesAll(all, params, seqNum, msg, LoadFully(msg))
    decreases all, 0
  {
    if all != [] {
      ReadsEnough(all[0], params, seqNum, msg, loaded);
      ReadsEnoughAll(all[1..], params, seqNum, msg, loaded);
    }
  }

  /** The two tables agree: a key requires exactly the content that its criterion reads, through NOT,
      OR and key sets, and the metadata if it reads any. */
  lemma {:induction false} RequiredIsRead(key: SearchKey, params: Params, c: Criteria)
    requires Of(key, params) == Success(c)
    ensures Required(key).header == Reads(c).header && Required(key).body == Reads(c).body
    ensures Reads(c).metadata ==> Required(key).metadata
    decreases key, 1
  {
    var direct := if key.inverse then c.key else c;
    match key.value
    case All =>
    case SeqSet(_) =>
    case KeySet(keys) => RequiredIsReadAll(keys, params, direct.all);
    case Or(left, right) =>
      RequiredIsRead(left, params, direct.left);
      RequiredIsRead(right, params, direct.right);
    case Named(name, filter) => NameIsRead(name, filter, params, direct);
  }

  lemma FlagNameIsRead(name: Name, filter: Filter, params: Params, c: Criteria)
    requires OfName(name, filter, params) == Success(c) && OfFlags(name)
    ensures Reads(c) == RequiredByName(name)
  {
  }

  lemma DateNameIsRead(name: Name, filter: Filter, params: Params, c: Criteria)
    requires OfName(name, filter, params) == Success(c) && OfDates(name)
    ensures Reads(c) == RequiredByName(name)
  {
  }

  lemma TextNameIsRead(name: Name, filter: Filter, params: Params, c: Criteria)
    requires OfName(name, filter, params) == Success(c) && !OfFlags(name) && !OfDates(name)
    ensures Reads(c) == RequiredByName(name)
  {
  }

  lemma NameIsRead(name: Name, filter: Filter, params: Params, c: Criteria)
    requires OfName(name, filter, params) == Success(c)
    ensures Reads(c) == RequiredByName(name)
  {
    if OfFlags(name) {
      FlagNameIsRead(name, filter, params, c);
    } else if OfDates(name) {
      DateNameIsRead(name, filter, params, c);
    } else {
      TextNameIsRead(name, filter, params, c);
    }
  }

  lemma {:induction false} RequiredIsReadAll(keys: seq<SearchKey>, params: Params, all: seq<Criteria>)
    requires OfAll(keys, params) == Success(all)
    ensures RequiredAll(keys).header == ReadsAll(all).header && RequiredAll(keys).body == ReadsAll(all).body
    ensures ReadsAll(all).metadata ==> RequiredAll(keys).metadata
    decreases keys, 0
  {
    if keys != [] {
      assert OfAll(keys[1..], params) == Success(all[1..]);
      RequiredIsRead(keys[0], params, all[0]);
      RequiredIsReadAll(keys[1..], params, all[1..]);
    }
  }

  /** Loading what a key requires, or more, from any backend is enough to decide what it means. */
  lemma MatchesIsHolds(key: SearchKey, params: Params, c: Criteria, backend: Backend, requirement: Requirement,
                       seqNum: int, msg: Stored)
    requires Of(key, params) == Success(c) && Covers(requirement, Required(key))
    ensures Matches(c, params, seqNum, msg, Load(backend, msg, requirement)) <==> Holds(key, params, seqNum, msg)
  {
    RequiredIsRead(key, params, c);
    LoadProvides(backend, msg, requirement, Reads(c));
    ReadsEnough(c, params, seqNum, msg, Load(backend, msg, requirement));
    WholeMatches(key, params, c, seqNum, msg);
  }

  lemma KeysMatchIsHold(
    keys: seq<SearchKey>, params: Params, all: seq<Criteria>, backend: Backend, seqNum: int, msg: Stored)
    requires OfAll(keys, params) == Success(all)
    ensures MatchesAll(all, params, seqNum, msg, Load(backend, msg, RequiredAll(keys))) <==>
            HoldAll(keys, params, seqNum, msg)
  {
    var requirement := RequiredAll(keys);
    RequiredIsReadAll(keys, params, all);
    LoadProvides(backend, msg, requirement, ReadsAll(all));
    ReadsEnoughAll(all, params, seqNum, msg, Load(backend, msg, requirement));
    WholeMatchesAll(keys, params, all, seqNum, msg);
  }
}
