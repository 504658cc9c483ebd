/** Counted analyzer provenance and the worst diagnostic note per type
    (app/aggregation/provenance.py). */
module Provenance {
  import opened Orders
  import opened Digits
  import opened Sequences
  import opened Tallies
  import opened Snapshots

  // ----- Counted metadata -----

  datatype Token = NoToken | TextToken(text: string) | IntToken(n: int)

  datatype Identity = Identity(schema: Token, appVersion: Token, profileId: Token, profileVersion: Token)

  const INVALID := TextToken("invalid")

  /** `_metadata_token` */
  function MetadataToken(v: Value): Token {
    match v
    case Null => NoToken
    case Text(text) => TextToken(text)
    case _ => INVALID
  }

  /** `_analyzer_schema` */
  function AnalyzerSchema(v: Value): Token {
    match v
    case Null => NoToken
    case Number(r) => if r == r.Floor as real then IntToken(r.Floor) else INVALID
    case _ => INVALID
  }

  function OrNull(v: Option<Value>): Value { if v.Some? then v.value else Null }

  /** The identity a snapshot is counted under; [] for legacy snapshots without metadata. */
  function Identified(s: Snapshot): (ids: seq<Identity>)
    ensures |ids| <= 1
  {
    if s.meta.None? then []
    else
      var meta := s.meta.value;
      if meta.schema.None? && meta.appVersion.None? && meta.profile.None? then []
      else
        var schema, version := AnalyzerSchema(OrNull(meta.schema)), MetadataToken(OrNull(meta.appVersion));
        match meta.profile
        case Some(ProfileRef(id, v)) => [Identity(schema, version, MetadataToken(id), MetadataToken(v))]
        case Some(NotAMapping) => [Identity(schema, version, INVALID, INVALID)]
        case _ => [Identity(schema, version, NoToken, NoToken)]
  }

  /** Only whole numbers survive as a schema, and only None as its absence. */
  lemma SchemaTokens(v: Value, n: int)
    ensures AnalyzerSchema(v) == IntToken(n) <==> v == Number(n as real)
    ensures AnalyzerSchema(v) == NoToken <==> v == Null
    ensures !AnalyzerSchema(v).IntToken? && v != Null ==> AnalyzerSchema(v) == TextToken("invalid")
  {
  }

  /** Only text survives in the other fields. */
  lemma FieldTokens(v: Value, text: string)
    ensures MetadataToken(v) == NoToken <==> v == Null
    ensures MetadataToken(Text(text)) == TextToken(text)
    ensures !v.Null? && !v.Text? ==> MetadataToken(v) == TextToken("invalid")
  {
  }

  /** A snapshot is legacy exactly when its metadata has none of the three keys. Otherwise it is
      counted under its four tokens, each None where the key is absent; a profile that is no mapping
      is invalid in both. */
  lemma IdentityIsRead(s: Snapshot, meta: Meta)
    requires s.meta == Some(meta)
    ensures Identified(s) == [] <==> meta == Meta(None, None, None)
    ensures Identified(s) != [] ==>
              var id := Identified(s)[0];
              && (match meta.schema
                  case None => id.schema == NoToken
                  case Some(v) => id.schema == AnalyzerSchema(v))
              && (match meta.appVersion
                  case None => id.appVersion == NoToken
                  case Some(v) => id.appVersion == MetadataToken(v))
              && (match meta.profile
                  case Some(ProfileRef(p, v)) =>
                    id.profileId == MetadataToken(p) && id.profileVersion == MetadataToken(v)
                  case Some(NotAMapping) => id.profileId == INVALID == id.profileVersion
                  case _ => id.profileId == NoToken == id.profileVersion)
  {
  }

  lemma WithoutMetadata(s: Snapshot)
    requires s.meta == None
    ensures Identified(s) == []
  {
  }

  function TypeName(t: Token): string {
    match t
    case NoToken => "NoneType"
    case TextToken(_) => "str"
    case IntToken(_) => "int"
  }

  function Str(t: Token): string {
    match t
    case NoToken => "None"
    case TextToken(text) => text
    case IntToken(n) => IntText(n)
  }

  /** The sort key: type name and text of each part. */
  function SortKey(id: Identity): seq<string> {
    [TypeName(id.schema), Str(id.schema), TypeName(id.appVersion), Str(id.appVersion),
     TypeName(id.profileId), Str(id.profileId), TypeName(id.profileVersion), Str(id.profileVersion)]
  }

  lemma TokenFromText(a: Token, b: Token)
    requires TypeName(a) == TypeName(b) && Str(a) == Str(b)
    ensures a == b
  {
    assert TypeName(a)[0] == TypeName(b)[0];
    if a.IntToken? && b.IntToken? {
      IntTextIsInjective(a.n, b.n);
    }
  }

  lemma SortKeyIdentifies(a: Identity, b: Identity)
    requires SortKey(a) == SortKey(b)
    ensures a == b
  {
    var x, y := SortKey(a), SortKey(b);
    assert x[0] == y[0] && x[1] == y[1] && x[2] == y[2] && x[3] == y[3];
    assert x[4] == y[4] && x[5] == y[5] && x[6] == y[6] && x[7] == y[7];
    TokenFromText(a.schema, b.schema);
    TokenFromText(a.appVersion, b.appVersion);
    TokenFromText(a.profileId, b.profileId);
    TokenFromText(a.profileVersion, b.profileVersion);
  }

  /** Python's `<` on tuples of strings. */
  predicate TupleLess(a: seq<string>, b: seq<string>) {
    b != [] && (a == [] || StringLess(a[0], b[0]) || (a[0] == b[0] && TupleLess(a[1..], b[1..])))
  }

  lemma {:induction false} TupleLessTrichotomy(a: seq<string>, b: seq<string>)
    ensures TupleLess(a, b) || TupleLess(b, a) <==> a != b
    ensures !(TupleLess(a, b) && TupleLess(b, a))
  {
    if a != [] && b != [] {
      StringLessTrichotomy(a[0], b[0]);
      if a[0] == b[0] {
        TupleLessTrichotomy(a[1..], b[1..]);
        assert a == [a[0]] + a[1..] && b == [b[0]] + b[1..];
      }
    }
  }

  lemma {:induction false} TupleLessTransitive(a: seq<string>, b: seq<string>, c: seq<string>)
    requires TupleLess(a, b) && TupleLess(b, c)
    ensures TupleLess(a, c)
  {
    if a != [] {
      StringLessTrichotomy(a[0], a[0]);
      if a[0] == b[0] == c[0] {
        TupleLessTransitive(a[1..], b[1..], c[1..]);
      } else if StringLess(a[0], b[0]) && StringLess(b[0], c[0]) {
        StringLessTransitive(a[0], b[0], c[0]);
      }
    }
  }

  /** Absent tokens come first, then numbers, then texts; both compare as text. */
  ghost predicate TokenLess(a: Token, b: Token) {
    match (a, b)
    case (NoToken, _) => b != NoToken
    case (_, NoToken) => false
    case (IntToken(m), IntToken(n)) => StringLess(IntText(m), IntText(n))
    case (IntToken(_), TextToken(_)) => true
    case (TextToken(_), IntToken(_)) => false
    case (TextToken(s), TextToken(t)) => StringLess(s, t)
  }

  function Pair(t: Token): seq<string> { [TypeName(t), Str(t)] }

  /** The first two parts of a key compare as the token they come from. */
  lemma TokenDecides(a: Token, b: Token, x: seq<string>, y: seq<string>)
    ensures TupleLess(Pair(a) + x, Pair(b) + y)
            <==> if a == b then TupleLess(x, y) else TokenLess(a, b)
  {
    var p, q := Pair(a) + x, Pair(b) + y;
    assert p[1..] == [Str(a)] + x && q[1..] == [Str(b)] + y;
    assert p[1..][1..] == x && q[1..][1..] == y;
    assert TypeName(a)[0] in "Nis" && TypeName(b)[0] in "Nis";
    StringLessTrichotomy(Str(a), Str(b));
    StringLessTrichotomy(TypeName(a), TypeName(b));
    if TypeName(a) == TypeName(b) && Str(a) == Str(b) {
      TokenFromText(a, b);
    }
  }

  lemma KeyAsPairs(x: Identity)
    ensures SortKey(x)
            == Pair(x.schema) + (Pair(x.appVersion) + (Pair(x.profileId) + (Pair(x.profileVersion) + [])))
  {
  }

  /** Identities are ordered by schema, then application version, profile id and profile version. */
  lemma IdentityOrder(a: Entry<Identity>, b: Entry<Identity>)
    ensures EntryLess(a, b) <==>
            var x, y := a.key, b.key;
            if x.schema != y.schema then TokenLess(x.schema, y.schema)
            else if x.appVersion != y.appVersion then TokenLess(x.appVersion, y.appVersion)
            else if x.profileId != y.profileId then TokenLess(x.profileId, y.profileId)
            else x.profileVersion != y.profileVersion && TokenLess(x.profileVersion, y.profileVersion)
  {
    var x, y := a.key, b.key;
    var p3, q3 := Pair(x.profileVersion) + [], Pair(y.profileVersion) + [];
    var p2, q2 := Pair(x.profileId) + p3, Pair(y.profileId) + q3;
    var p1, q1 := Pair(x.appVersion) + p2, Pair(y.appVersion) + q2;
    KeyAsPairs(x);
    KeyAsPairs(y);
    TokenDecides(x.schema, y.schema, p1, q1);
    TokenDecides(x.appVersion, y.appVersion, p2, q2);
    TokenDecides(x.profileId, y.profileId, p3, q3);
    TokenDecides(x.profileVersion, y.profileVersion, [], []);
  }

  predicate EntryLess(a: Entry<Identity>, b: Entry<Identity>) { TupleLess(SortKey(a.key), SortKey(b.key)) }

  lemma EntryLessIsOrder()
    ensures StrictWeakOrder(EntryLess)
  {
    forall a, b, c
      ensures !EntryLess(a, a)
      ensures EntryLess(a, b) && EntryLess(b, c) ==> EntryLess(a, c)
      ensures EntryLess(a, b) ==> EntryLess(a, c) || EntryLess(c, b)
    {
      var x, y, z := SortKey(a.key), SortKey(b.key), SortKey(c.key);
      KeyOrder(x, y, z);
    }
  }

  lemma KeyOrder(x: seq<string>, y: seq<string>, z: seq<string>)
    ensures !TupleLess(x, x)
    ensures TupleLess(x, y) && TupleLess(y, z) ==> TupleLess(x, z)
    ensures TupleLess(x, y) ==> TupleLess(x, z) || TupleLess(z, y)
  {
    TupleLessTrichotomy(x, x);
    TupleLessTrichotomy(x, z);
    if TupleLess(x, y) && TupleLess(y, z) {
      TupleLessTransitive(x, y, z);
    }
    if TupleLess(z, x) && TupleLess(x, y) {
      TupleLessTransitive(z, x, y);
    }
  }

  function Legacy(s: Snapshot): seq<Snapshot> { if Identified(s) == [] then [s] else [] }

  datatype Report = Report(legacyNoMetadata: nat, metadata: seq<Entry<Identity>>)

  function Identities(ss: seq<Snapshot>): seq<Identity> { FlatMap(ss, Identified) }

  /** The provenance of a list of snapshots. */
  function ProvenanceOf(ss: seq<Snapshot>): Report {
    Report(|FlatMap(ss, Legacy)|, Sort(Tally(Identities(ss)), EntryLess))
  }

  lemma IdentitiesStep(ss: seq<Snapshot>, i: nat)
    requires i < |ss|
    ensures Identified(ss[i]) == [] ==> Identities(ss[..i + 1]) == Identities(ss[..i])
    ensures Identified(ss[i]) != []
            ==> Tally(Identities(ss[..i + 1])) == Bump(Tally(Identities(ss[..i])), Identified(ss[i])[0])
    ensures |FlatMap(ss[..i + 1], Legacy)| == |FlatMap(ss[..i], Legacy)| + if Identified(ss[i]) == [] then 1 else 0
  {
    assert ss[..i + 1][..i] == ss[..i];
    var before, id := Identities(ss[..i]), Identified(ss[i]);
    assert Identities(ss[..i + 1]) == before + id;
    if id == [] {
      assert before + id == before;
    } else {
      assert id == [id[0]];
      TallyStep(before, id[0]);
    }
  }

  /** `aggregate_provenance` */
  method AggregateProvenance(ss: seq<Snapshot>) returns (report: Report)
    ensures report == ProvenanceOf(ss)
  {
    var counts: seq<Entry<Identity>> := [];
    var legacyNoMetadata := 0;
    for i := 0 to |ss|
      invariant counts == Tally(Identities(ss[..i])) && legacyNoMetadata == |FlatMap(ss[..i], Legacy)|
    {
      IdentitiesStep(ss, i);
      var id := Identified(ss[i]);
      if id == [] {
        legacyNoMetadata := legacyNoMetadata + 1;
        continue;
      }
      counts := Bump(counts, id[0]);
    }
    assert ss[..|ss|] == ss;
    report := Report(legacyNoMetadata, Sort(counts, EntryLess));
  }

  lemma {:induction false} TotalOfInsert<T>(e: Entry<T>, t: seq<Entry<T>>, less: (Entry<T>, Entry<T>) -> bool)
    ensures Total(Insert(e, t, less)) == e.count + Total(t)
  {
    if t != [] && less(t[0], e) {
      TotalOfInsert(e, t[1..], less);
    }
  }

  lemma {:induction false} TotalOfSort<T>(t: seq<Entry<T>>, less: (Entry<T>, Entry<T>) -> bool)
    ensures Total(Sort(t, less)) == Total(t)
  {
    if t != [] {
      TotalOfSort(t[1..], less);
      TotalOfInsert(t[0], Sort(t[1..], less), less);
    }
  }

  lemma {:induction false} EachSnapshotIsLegacyOrIdentified(ss: seq<Snapshot>)
    ensures |FlatMap(ss, Legacy)| + |Identities(ss)| == |ss|
  {
    if ss != [] {
      EachSnapshotIsLegacyOrIdentified(ss[..|ss| - 1]);
    }
  }

  /** Every snapshot is counted once: the legacy count and the counts of the identities add up. */
  lemma ProvenanceConserves(ss: seq<Snapshot>)
    ensures ProvenanceOf(ss).legacyNoMetadata + Total(ProvenanceOf(ss).metadata) == |ss|
  {
    EachSnapshotIsLegacyOrIdentified(ss);
    TallyCounts(Identities(ss));
    TotalOfSort(Tally(Identities(ss)), EntryLess);
  }

  lemma EntryTiesAreEqual(ids: seq<Identity>)
    ensures TiesAreEqual(Tally(ids), EntryLess)
  {
    var t := Tally(ids);
    TallyCounts(ids);
    forall i, j | 0 <= i < |t| && 0 <= j < |t| && !EntryLess(t[i], t[j]) && !EntryLess(t[j], t[i])
      ensures t[i] == t[j]
    {
      TupleLessTrichotomy(SortKey(t[i].key), SortKey(t[j].key));
      SortKeyIdentifies(t[i].key, t[j].key);
      EntriesAreCounts(t, t[i]);
      EntriesAreCounts(t, t[j]);
    }
  }

  /** Counted provenance does not depend on the order of the snapshots. */
  lemma ProvenanceIgnoresOrder(a: seq<Snapshot>, b: seq<Snapshot>)
    requires multiset(a) == multiset(b)
    ensures ProvenanceOf(a) == ProvenanceOf(b)
  {
    FlatMapPermutes(a, b, Identified);
    FlatMapPermutes(a, b, Legacy);
    assert |multiset(FlatMap(a, Legacy))| == |multiset(FlatMap(b, Legacy))|;
    TallyPermutes(Identities(a), Identities(b));
    EntryLessIsOrder();
    EntryTiesAreEqual(Identities(a));
    SortIgnoresInputOrder(Tally(Identities(a)), Tally(Identities(b)), EntryLess);
  }

  /** The metadata lists each identity that occurs once, with its number of snapshots. */
  lemma MetadataCounts(ss: seq<Snapshot>, e: Entry<Identity>)
    ensures e in ProvenanceOf(ss).metadata <==> e.count > 0 && e.count == Occurrences(Identities(ss), e.key)
    ensures multiset(ProvenanceOf(ss).metadata)[e] <= 1
    ensures Sorted(ProvenanceOf(ss).metadata, EntryLess)
  {
    var t := Tally(Identities(ss));
    TallyCounts(Identities(ss));
    EntriesAreCounts(t, e);
    SortPermutes(t, EntryLess);
    SortMembers(t, EntryLess);
    EntryLessIsOrder();
    SortSorts(t, EntryLess);
  }

  // ----- One note per type -----

  datatype Candidate = Candidate(note: Note, observedAt: string)

  predicate IsHigh(k: Kind) { k.UsPowerHigh? || k.DsPowerHigh? }

  /** The worse the note, the lower its rank. */
  datatype Rank = Rank(tier: int, evidence: real, observedAt: string, channel: ChannelIdentity, channelType: string)

  function RankOf(c: Candidate, k: Kind): Rank {
    var n := c.note;
    if n.deviation.Some? then Rank(0, -n.deviation.value, c.observedAt, n.channel, n.channelType)
    else
      var raw := if n.value.Some? then n.value.value else 0.0;
      Rank(1, if IsHigh(k) then -raw else raw, c.observedAt, n.channel, n.channelType)
  }

  predicate ChannelLess(a: ChannelIdentity, b: ChannelIdentity) {
    match (a, b)
    case (Numbered(m), Numbered(n)) => m < n
    case (Named(s), Named(t)) => StringLess(s, t)
    case (Numbered(_), Named(_)) => true
    case (Named(_), Numbered(_)) => false
  }

  predicate RankLess(a: Rank, b: Rank) {
    if a.tier != b.tier then a.tier < b.tier
    else if a.evidence != b.evidence then a.evidence < b.evidence
    else if a.observedAt != b.observedAt then StringLess(a.observedAt, b.observedAt)
    else if a.channel != b.channel then ChannelLess(a.channel, b.channel)
    else StringLess(a.channelType, b.channelType)
  }

  lemma StringOrder(x: string, y: string, z: string)
    ensures !StringLess(x, x)
    ensures StringLess(x, y) && StringLess(y, z) ==> StringLess(x, z)
    ensures x != y ==> StringLess(x, y) || StringLess(y, x)
    ensures StringLess(x, y) ==> !StringLess(y, x)
  {
    StringLessTrichotomy(x, x);
    StringLessTrichotomy(x, y);
    if StringLess(x, y) && StringLess(y, z) {
      StringLessTransitive(x, y, z);
    }
  }

  lemma ChannelOrder(x: ChannelIdentity, y: ChannelIdentity, z: ChannelIdentity)
    ensures !ChannelLess(x, x)
    ensures ChannelLess(x, y) && ChannelLess(y, z) ==> ChannelLess(x, z)
    ensures x != y ==> ChannelLess(x, y) || ChannelLess(y, x)
    ensures ChannelLess(x, y) ==> !ChannelLess(y, x)
  {
    StringOrder(if x.Named? then x.name else "", if y.Named? then y.name else "", if z.Named? then z.name else "");
    StringOrder(if x.Named? then x.name else "", if x.Named? then x.name else "", "");
  }

  /** Ranks are totally ordered, as tuples are. */
  lemma RankOrder(x: Rank, y: Rank, z: Rank)
    ensures !RankLess(x, x)
    ensures RankLess(x, y) && RankLess(y, z) ==> RankLess(x, z)
    ensures x != y ==> RankLess(x, y) || RankLess(y, x)
  {
    StringOrder(x.observedAt, y.observedAt, z.observedAt);
    StringOrder(y.observedAt, x.observedAt, z.observedAt);
    StringOrder(x.channelType, y.channelType, z.channelType);
    ChannelOrder(x.channel, y.channel, z.channel);
    ChannelOrder(y.channel, x.channel, z.channel);
  }

  /** The first of the two candidates ranks strictly before the second. */
  function Before(k: Kind): (Candidate, Candidate) -> bool {
    (a, b) => RankLess(RankOf(a, k), RankOf(b, k))
  }

  /** The raw value of a note; zero where it is no number. */
  ghost predicate HasRaw(n: Note, x: real) { n.value == Some(x) || (n.value.None? && x == 0.0) }

  /** A note with a numeric deviation comes before one without. Among the former the larger
      deviation is worse; among the latter the higher value where high is bad, else the lower. */
  lemma EvidenceDecides(a: Candidate, b: Candidate, k: Kind, x: real, y: real)
    requires HasRaw(a.note, x) && HasRaw(b.note, y)
    ensures match (a.note.deviation, b.note.deviation)
            case (Some(d), Some(e)) => d > e ==> Before(k)(a, b)
            case (Some(_), None) => Before(k)(a, b)
            case (None, Some(_)) => true
            case (None, None) =>
              (if k in {UsPowerHigh, DsPowerHigh} then x > y else x < y) ==> Before(k)(a, b)
  {
  }

  /** Equal evidence: the earlier observation, then the lower channel number, numbers before names,
      then the type of the channel. */
  lemma TiesAreSettled(a: Candidate, b: Candidate, k: Kind)
    requires a.note.deviation == b.note.deviation && a.note.value == b.note.value
    ensures StringLess(a.observedAt, b.observedAt) ==> Before(k)(a, b)
    ensures a.observedAt == b.observedAt ==>
              match (a.note.channel, b.note.channel)
              case (Numbered(m), Numbered(n)) => m < n ==> Before(k)(a, b)
              case (Numbered(_), Named(_)) => Before(k)(a, b)
              case (Named(_), Numbered(_)) => true
              case (Named(s), Named(t)) => StringLess(s, t) ==> Before(k)(a, b)
    ensures a.observedAt == b.observedAt && a.note.channel == b.note.channel ==>
              StringLess(a.note.channelType, b.note.channelType) ==> Before(k)(a, b)
  {
    StringLessTrichotomy(a.observedAt, b.observedAt);
    if a.note.channel.Named? && b.note.channel.Named? {
      StringLessTrichotomy(a.note.channel.name, b.note.channel.name);
    }
  }

  lemma BeforeIsOrder(k: Kind)
    ensures StrictWeakOrder(Before(k))
  {
    forall a, b, c
      ensures !Before(k)(a, a)
      ensures Before(k)(a, b) && Before(k)(b, c) ==> Before(k)(a, c)
      ensures Before(k)(a, b) ==> Before(k)(a, c) || Before(k)(c, b)
    {
      var x, y, z := RankOf(a, k), RankOf(b, k), RankOf(c, k);
      RankOrder(x, y, z);
      RankOrder(x, z, z);
      RankOrder(z, x, y);
    }
  }

  function Observed(notes: seq<Note>, at: string): seq<Candidate> {
    seq(|notes|, i requires 0 <= i < |notes| => Candidate(notes[i], at))
  }

  function SnapshotNotes(env: Env): Snapshot -> seq<Candidate> {
    s => Observed(env.notes(s), env.canonical(s.timestamp))
  }

  function Candidates(ss: seq<Snapshot>, env: Env): seq<Candidate> { FlatMap(ss, SnapshotNotes(env)) }

  /** The candidates are the notes of the snapshots, each with the time of its snapshot. */
  lemma CandidatesAreNotes(ss: seq<Snapshot>, env: Env, c: Candidate)
    ensures c in Candidates(ss, env) <==>
            exists s, n :: s in ss && n in env.notes(s) && c == Candidate(n, env.canonical(s.timestamp))
  {
    FlatMapMembers(ss, SnapshotNotes(env));
    forall s | s in ss
      ensures c in SnapshotNotes(env)(s) <==>
              exists n :: n in env.notes(s) && c == Candidate(n, env.canonical(s.timestamp))
    {
      NotesObserved(env.notes(s), env.canonical(s.timestamp), c);
    }
  }

  lemma NotesObserved(notes: seq<Note>, at: string, c: Candidate)
    ensures c in Observed(notes, at) <==> exists n :: n in notes && c == Candidate(n, at)
  {
    if n: Note :| n in notes && c == Candidate(n, at) {
      var i :| 0 <= i < |notes| && notes[i] == n;
      assert Observed(notes, at)[i] == c;
    }
  }

  function IfKind(k: Kind): Candidate -> seq<Candidate> { (c: Candidate) => if c.note.kind == Some(k) then [c] else [] }

  function OfKind(cs: seq<Candidate>, k: Kind): seq<Candidate> { FlatMap(cs, IfKind(k)) }

  /** The worst candidate of a kind. */
  function Worst(cs: seq<Candidate>, k: Kind): Option<Candidate> { Best(OfKind(cs, k), Before(k)) }

  function TypeOrder(k: Kind): (n: nat)
    ensures n < 5
  {
    match k
    case UsPowerHigh => 0
    case UsPowerLow => 1
    case DsPowerHigh => 2
    case DsPowerLow => 3
    case SnrLow => 4
  }

  /** The types in the order of the report. */
  const KINDS := [UsPowerHigh, UsPowerLow, DsPowerHigh, DsPowerLow, SnrLow]

  function ToSeq<T>(x: Option<T>): seq<T> { if x.Some? then [x.value] else [] }

  function Pick(cs: seq<Candidate>): Kind -> seq<Candidate> { k => ToSeq(Worst(cs, k)) }

  function DiagnosticNotes(ss: seq<Snapshot>, env: Env): seq<Candidate> {
    FlatMap(KINDS, Pick(Candidates(ss, env)))
  }

  lemma OfKindAppend(cs: seq<Candidate>, c: Candidate, k: Kind)
    ensures OfKind(cs + [c], k) == if c.note.kind == Some(k) then OfKind(cs, k) + [c] else OfKind(cs, k)
  {
    assert (cs + [c])[..|cs|] == cs;
  }

  lemma WorstStep(cs: seq<Candidate>, c: Candidate, k: Kind)
    ensures Worst(cs + [c], k) == if c.note.kind == Some(k) then Better(Worst(cs, k), c, Before(k)) else Worst(cs, k)
  {
    OfKindAppend(cs, c, k);
    assert (OfKind(cs, k) + [c])[..|OfKind(cs, k)|] == OfKind(cs, k);
  }

  function Chosen(selected: map<Kind, Candidate>, k: Kind): Option<Candidate> {
    if k in selected then Some(selected[k]) else None
  }

  /** One pass over the candidates keeps the worst of each kind. */
  method SelectWorst(cs: seq<Candidate>) returns (selected: map<Kind, Candidate>)
    ensures forall k :: Chosen(selected, k) == Worst(cs, k)
  {
    selected := map[];
    for i := 0 to |cs|
      invariant forall k :: Chosen(selected, k) == Worst(cs[..i], k)
    {
      var c := cs[i];
      assert cs[..i + 1] == cs[..i] + [c];
      forall k
        ensures Worst(cs[..i + 1], k)
                == if c.note.kind == Some(k) then Better(Worst(cs[..i], k), c, Before(k)) else Worst(cs[..i], k)
      {
        WorstStep(cs[..i], c, k);
      }
      if c.note.kind.None? {
        continue;
      }
      var k := c.note.kind.value;
      if k !in selected || RankLess(RankOf(c, k), RankOf(selected[k], k)) {
        selected := selected[k := c];
      }
    }
    assert cs[..|cs|] == cs;
  }

  method CollectCandidates(ss: seq<Snapshot>, env: Env) returns (candidates: seq<Candidate>)
    ensures candidates == Candidates(ss, env)
  {
    candidates := [];
    for i := 0 to |ss|
      invariant candidates == Candidates(ss[..i], env)
    {
      assert ss[..i + 1][..i] == ss[..i];
      candidates := candidates + Observed(env.notes(ss[i]), env.canonical(ss[i].timestamp));
    }
    assert ss[..|ss|] == ss;
  }

  method ListNotes(selected: map<Kind, Candidate>, ks: seq<Kind>, ghost cs: seq<Candidate>)
    returns (notes: seq<Candidate>)
    requires forall k :: Chosen(selected, k) == Worst(cs, k)
    ensures notes == FlatMap(ks, Pick(cs))
  {
    notes := [];
    for i := 0 to |ks|
      invariant notes == FlatMap(ks[..i], Pick(cs))
    {
      assert ks[..i + 1][..i] == ks[..i];
      notes := notes + ToSeq(Chosen(selected, ks[i]));
    }
    assert ks[..|ks|] == ks;
  }

  /** A later observation than the second. */
  function Later(env: Env): (Snapshot, Snapshot) -> bool {
    (a: Snapshot, b: Snapshot) => StringLess(env.canonical(b.timestamp), env.canonical(a.timestamp))
  }

  lemma LaterIsOrder(env: Env)
    ensures StrictWeakOrder(Later(env))
  {
    forall a, b, c
      ensures !Later(env)(a, a)
      ensures Later(env)(a, b) && Later(env)(b, c) ==> Later(env)(a, c)
      ensures Later(env)(a, b) ==> Later(env)(a, c) || Later(env)(c, b)
    {
      var x, y, z := env.canonical(a.timestamp), env.canonical(b.timestamp), env.canonical(c.timestamp);
      StringOrder(x, x, x);
      StringOrder(z, y, x);
      StringOrder(z, x, x);
      StringOrder(y, x, z);
      StringOrder(y, z, z);
    }
  }

  /** `max` by canonical timestamp, which keeps the first of equals. */
  function Latest(ss: seq<Snapshot>, env: Env): Option<Snapshot> { Best(ss, Later(env)) }

  datatype Historical = Historical(latest: Option<Snapshot>, notes: seq<Candidate>)

  /** `derive_historical`: the first snapshot that none is later than, and the selected notes. */
  method DeriveHistorical(ss: seq<Snapshot>, env: Env) returns (h: Historical)
    ensures h.notes == DiagnosticNotes(ss, env)
    ensures h.latest == Latest(ss, env)
    ensures if ss == [] then h.latest.None? else h.latest.Some? && FirstBest(ss, h.latest.value, Later(env))
  {
    LaterIsOrder(env);
    BestIsFirstBest(ss, Later(env));
    var candidates := CollectCandidates(ss, env);
    var selected := SelectWorst(candidates);
    var notes := ListNotes(selected, KINDS, candidates);
    h := Historical(Latest(ss, env), notes);
  }

  lemma OfKindSingle(c: Candidate, k: Kind)
    ensures OfKind([c], k) == if c.note.kind == Some(k) then [c] else []
  {
    OfKindAppend([], c, k);
    assert [] + [c] == [c];
  }

  lemma WorstHasKind(cs: seq<Candidate>, k: Kind)
    ensures Worst(cs, k).Some? ==> Worst(cs, k).value.note.kind == Some(k)
  {
    BeforeIsOrder(k);
    BestIsFirstBest(OfKind(cs, k), Before(k));
    FlatMapMembers(cs, IfKind(k));
    assert Worst(cs, k).Some? ==> Worst(cs, k).value in OfKind(cs, k);
  }

  lemma OneOfKind(worst: Option<Candidate>, k: Kind, j: Kind)
    requires worst.Some? ==> worst.value.note.kind == Some(k)
    ensures OfKind(ToSeq(worst), j) == if k == j then ToSeq(worst) else []
  {
    if worst.Some? {
      OfKindSingle(worst.value, j);
    }
  }

  lemma KindsAreAll()
    ensures forall k :: k in KINDS
    ensures forall i, j | 0 <= i < j < |KINDS| :: KINDS[i] != KINDS[j]
  {
    forall k ensures k in KINDS {
      assert KINDS[TypeOrder(k)] == k;
    }
    forall i | 0 <= i < |KINDS| ensures TypeOrder(KINDS[i]) == i {
    }
  }

  /** At most one note per kind, present exactly when some snapshot has a note of that kind; it is
      the first of those no other ranks before. */
  lemma OneWorstNotePerKind(ss: seq<Snapshot>, env: Env, k: Kind)
    ensures var cs := OfKind(Candidates(ss, env), k);
            var noted := OfKind(DiagnosticNotes(ss, env), k);
            if cs == [] then noted == []
            else |noted| == 1 && FirstBest(cs, noted[0], Before(k))
  {
    var all := Candidates(ss, env);
    BeforeIsOrder(k);
    BestIsFirstBest(OfKind(all, k), Before(k));
    NotesHoldWorst(all, k);
  }

  lemma PickedOfKind(all: seq<Candidate>, j: Kind, k: Kind)
    ensures Composed(Pick(all), IfKind(k))(j) == if j == k then ToSeq(Worst(all, k)) else []
  {
    WorstHasKind(all, j);
    OneOfKind(Worst(all, j), j, k);
  }

  lemma OnlyKind(held: Kind -> seq<Candidate>, k: Kind)
    requires forall j | j != k :: held(j) == []
    ensures FlatMap(KINDS, held) == held(k)
  {
    KindsAreAll();
    FlatMapOnlyOne(KINDS, held, k);
  }

  lemma NotesHoldWorst(all: seq<Candidate>, k: Kind)
    ensures OfKind(FlatMap(KINDS, Pick(all)), k) == ToSeq(Worst(all, k))
  {
    var held := Composed(Pick(all), IfKind(k));
    forall j ensures held(j) == if j == k then ToSeq(Worst(all, k)) else [] {
      PickedOfKind(all, j, k);
    }
    OnlyKind(held, k);
    FlatMapComposed(KINDS, Pick(all), IfKind(k));
  }
}
