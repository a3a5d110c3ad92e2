/**
 The text of a cache key (surfaces/webui/src/api/client.ts, `cacheKey` in `readAtRevision`): its parts joined by
 colons. Which parts the text determines, and when it determines all of them.
 */
module ReadKeys {
  import opened DataScopes
  import ReadCoherence

  /** The scope revisions of a read: its session and one facet of it, or a single scope. */
  datatype Revisions =
    | OfSession(whole: nat, facet: string, part: nat)
    | OfScope(scope: Scope, revision: nat)

  /** `locator` is the path and the headers, joined by a colon. */
  datatype Key = Key(epoch: nat, session: Session, sessionEpoch: nat, sessionRevision: nat, revisions: Revisions,
                     readClass: string, locator: string)

  function Digit(n: nat): char
    requires n < 10
  {
    "0123456789"[n]
  }

  function Decimal(n: nat): string {
    if n < 10 then [Digit(n)] else Decimal(n / 10) + [Digit(n % 10)]
  }

  function Revised(scope: Scope, revision: nat): string {
    scope + ("@" + Decimal(revision))
  }

  function RevisionsText(session: Session, r: Revisions): string {
    match r
    case OfSession(whole, facet, part) =>
      "session:" + session + ("@" + (Decimal(whole) + ("," + Revised(SessionScope(session, facet), part))))
    case OfScope(scope, revision) => Revised(scope, revision)
  }

  /** What follows the session's revision. */
  function Rest(k: Key): string {
    RevisionsText(k.session, k.revisions) + (":" + (k.readClass + (":" + k.locator)))
  }

  /** What follows the epoch. */
  function Tail(k: Key): string {
    k.session + (":" + (Decimal(k.sessionEpoch) + (":" + (Decimal(k.sessionRevision) + (":" + Rest(k))))))
  }

  function Text(k: Key): string {
    Decimal(k.epoch) + (":" + Tail(k))
  }

  predicate Plain(word: string) {
    ':' !in word && '/' !in word && '@' !in word
  }

  /** Keys as the client builds them. */
  predicate WellFormed(k: Key) {
    && (match k.revisions
        case OfSession(_, facet, _) => k.session != "" && facet in FACETS
        case OfScope(scope, _) => k.session == "" && '/' !in scope)
    && Plain(k.readClass) && k.locator != "" && k.locator[0] == '/'
  }

  // ----- Decimals -----

  lemma {:induction false} DecimalIsDigits(n: nat)
    ensures Decimal(n) != "" && forall c :: c in Decimal(n) ==> c in "0123456789"
  {
    if n >= 10 { DecimalIsDigits(n / 10); }
  }

  lemma DecimalIsPlain(n: nat)
    ensures Plain(Decimal(n)) && ',' !in Decimal(n)
  {
    DecimalIsDigits(n);
  }

  lemma DigitIsInjective(m: nat, n: nat)
    requires m < 10 && n < 10 && Digit(m) == Digit(n)
    ensures m == n
  {
  }

  lemma {:induction false} DecimalIsInjective(m: nat, n: nat)
    requires Decimal(m) == Decimal(n)
    ensures m == n
  {
    DecimalIsDigits(m / 10);
    DecimalIsDigits(n / 10);
    var a, b := Decimal(m), Decimal(n);
    assert a[|a| - 1] == Digit(m % 10) && b[|b| - 1] == Digit(n % 10);
    DigitIsInjective(m % 10, n % 10);
    if m >= 10 && n >= 10 {
      assert a[..|a| - 1] == Decimal(m / 10) && b[..|b| - 1] == Decimal(n / 10);
      DecimalIsInjective(m / 10, n / 10);
    }
  }

  // ----- Cutting at a separator -----

  lemma ShorterMeetsSeparator(a: string, b: string, sep: char, x: string, y: string)
    requires |a| < |b| && a + ([sep] + x) == b + ([sep] + y)
    ensures sep in b && sep in x
  {
    var s, t := a + ([sep] + x), b + ([sep] + y);
    assert s[|a|] == sep && t[|a|] == b[|a|];
    assert t[|b|] == sep && s[|b|] == x[|b| - |a| - 1];
  }

  lemma SameLengthParts(a: string, b: string, sep: char, x: string, y: string)
    requires |a| == |b| && a + ([sep] + x) == b + ([sep] + y)
    ensures a == b && x == y
  {
    var s, t := a + ([sep] + x), b + ([sep] + y);
    assert s[..|a|] == a && t[..|b|] == b && s[|a| + 1..] == x && t[|b| + 1..] == y;
  }

  /** The first separator splits a text in one way. */
  lemma CutIsUnique(a: string, b: string, sep: char, x: string, y: string)
    requires sep !in a && sep !in b && a + ([sep] + x) == b + ([sep] + y)
    ensures a == b && x == y
  {
    if |a| < |b| { ShorterMeetsSeparator(a, b, sep, x, y); }
    if |b| < |a| { ShorterMeetsSeparator(b, a, sep, y, x); }
    SameLengthParts(a, b, sep, x, y);
  }

  /** So does the last one. */
  lemma LastCutIsUnique(a: string, b: string, sep: char, x: string, y: string)
    requires sep !in x && sep !in y && a + ([sep] + x) == b + ([sep] + y)
    ensures a == b && x == y
  {
    if |a| < |b| { ShorterMeetsSeparator(a, b, sep, x, y); }
    if |b| < |a| { ShorterMeetsSeparator(b, a, sep, y, x); }
    SameLengthParts(a, b, sep, x, y);
  }

  lemma Push(a: string, sep: string, b: string, x: string)
    ensures (a + (sep + b)) + x == a + (sep + (b + x))
  {
    assert (sep + b) + x == sep + (b + x);
  }

  lemma CutDecimal(m: nat, n: nat, sep: char, x: string, y: string)
    requires sep in ":,/@" && Decimal(m) + ([sep] + x) == Decimal(n) + ([sep] + y)
    ensures m == n && x == y
  {
    DecimalIsPlain(m);
    DecimalIsPlain(n);
    CutIsUnique(Decimal(m), Decimal(n), sep, x, y);
    DecimalIsInjective(m, n);
  }

  lemma SameHead(head: string, a: string, b: string)
    requires head + a == head + b
    ensures a == b
  {
    assert (head + a)[|head|..] == a && (head + b)[|head|..] == b;
  }

  // ----- The epoch, for any session ids -----

  /** Keys with equal texts are of the same authentication epoch, whatever their session ids contain. */
  lemma EqualTextsEqualEpochs(k: Key, l: Key)
    requires Text(k) == Text(l)
    ensures k.epoch == l.epoch
  {
    CutDecimal(k.epoch, l.epoch, ':', Tail(k), Tail(l));
  }

  // ----- Everything, unless one session id continues the other -----

  /** One id continues the other with a colon. */
  predicate Continues(a: Session, b: Session) {
    StartsWith(a, b + ":") || StartsWith(b, a + ":")
  }

  lemma ShorterIsContinued(a: string, b: string, x: string, y: string)
    requires |a| < |b| && a + (":" + x) == b + (":" + y)
    ensures StartsWith(b, a + ":")
  {
    var s, t := a + (":" + x), b + (":" + y);
    assert s[..|a| + 1] == a + ":" && t[..|a| + 1] == b[..|a| + 1];
  }

  lemma SameSession(a: Session, b: Session, x: string, y: string)
    requires !Continues(a, b) && a + (":" + x) == b + (":" + y)
    ensures a == b && x == y
  {
    if |a| < |b| { ShorterIsContinued(a, b, x, y); }
    if |b| < |a| { ShorterIsContinued(b, a, y, x); }
    SameLengthParts(a, b, ':', x, y);
  }

  lemma ScopedRestsAreInjective(session: Session, r: Revisions, q: Revisions, x: string, y: string)
    requires r.OfSession? && q.OfSession? && r.facet in FACETS && q.facet in FACETS
    requires RevisionsText(session, r) + (":" + x) == RevisionsText(session, q) + (":" + y)
    ensures r == q && x == y
  {
    var fr, fq := Decimal(r.part) + (":" + x), Decimal(q.part) + (":" + y);
    var tr, tq := SessionScope(session, r.facet) + ("@" + fr), SessionScope(session, q.facet) + ("@" + fq);
    ScopedText(session, r, x);
    ScopedText(session, q, y);
    var head := "session:" + session + "@";
    SameHead(head, Decimal(r.whole) + ("," + tr), Decimal(q.whole) + ("," + tq));
    CutDecimal(r.whole, q.whole, ',', tr, tq);
    FacetCuts(session, r.facet, q.facet, fr, fq);
    CutDecimal(r.part, q.part, ':', x, y);
  }

  lemma ScopedText(session: Session, r: Revisions, x: string)
    requires r.OfSession?
    ensures RevisionsText(session, r) + (":" + x)
         == ("session:" + session + "@")
            + (Decimal(r.whole) + ("," + (SessionScope(session, r.facet) + ("@" + (Decimal(r.part) + (":" + x))))))
  {
    ThreeParts("session:" + session, Decimal(r.whole), SessionScope(session, r.facet), Decimal(r.part), ":" + x);
  }

  lemma ThreeParts(a: string, b: string, c: string, d: string, x: string)
    ensures (a + ("@" + (b + ("," + (c + ("@" + d)))))) + x == (a + "@") + (b + ("," + (c + ("@" + (d + x)))))
  {
    Push(a, "@", b + ("," + (c + ("@" + d))), x);
    Push(b, ",", c + ("@" + d), x);
    Push(c, "@", d, x);
    assert a + ("@" + (b + ("," + (c + ("@" + (d + x)))))) == (a + "@") + (b + ("," + (c + ("@" + (d + x)))));
  }

  lemma FacetCuts(session: Session, f: string, g: string, x: string, y: string)
    requires f in FACETS && g in FACETS && SessionScope(session, f) + ("@" + x) == SessionScope(session, g) + ("@" + y)
    ensures f == g && x == y
  {
    var head := "session:" + session + ":";
    assert SessionScope(session, f) + ("@" + x) == head + (f + ("@" + x));
    assert SessionScope(session, g) + ("@" + y) == head + (g + ("@" + y));
    SameHead(head, f + ("@" + x), g + ("@" + y));
    CutIsUnique(f, g, '@', x, y);
  }

  /** A scope without slashes, up to the slash the path starts with. */
  lemma UnscopedRestsAreInjective(a: Scope, m: nat, c: string, x: string, b: Scope, n: nat, d: string, y: string)
    requires '/' !in a && '/' !in b && Plain(c) && Plain(d)
    requires Revised(a, m) + (":" + (c + (":" + ("/" + x)))) == Revised(b, n) + (":" + (d + (":" + ("/" + y))))
    ensures a == b && m == n && c == d && x == y
  {
    DecimalIsPlain(m);
    DecimalIsPlain(n);
    var p, q := Decimal(m) + (":" + (c + ":")), Decimal(n) + (":" + (d + ":"));
    var s, t := a + ("@" + p), b + ("@" + q);
    assert Revised(a, m) + (":" + (c + (":" + ("/" + x)))) == s + ("/" + x);
    assert Revised(b, n) + (":" + (d + (":" + ("/" + y)))) == t + ("/" + y);
    CutIsUnique(s, t, '/', x, y);
    LastCutIsUnique(a, b, '@', p, q);
    CutDecimal(m, n, ':', c + ":", d + ":");
    assert c + ":" == c + ([':'] + "") && d + ":" == d + ([':'] + "");
    CutIsUnique(c, d, ':', "", "");
  }

  lemma HeadsAreInjective(k: Key, l: Key)
    requires !Continues(k.session, l.session) && Text(k) == Text(l)
    ensures k.epoch == l.epoch && k.session == l.session && k.sessionEpoch == l.sessionEpoch
    ensures k.sessionRevision == l.sessionRevision && Rest(k) == Rest(l)
  {
    var rk, rl := Decimal(k.sessionRevision) + (":" + Rest(k)), Decimal(l.sessionRevision) + (":" + Rest(l));
    var ek, el := Decimal(k.sessionEpoch) + (":" + rk), Decimal(l.sessionEpoch) + (":" + rl);
    CutDecimal(k.epoch, l.epoch, ':', k.session + (":" + ek), l.session + (":" + el));
    SameSession(k.session, l.session, ek, el);
    CutDecimal(k.sessionEpoch, l.sessionEpoch, ':', rk, rl);
    CutDecimal(k.sessionRevision, l.sessionRevision, ':', Rest(k), Rest(l));
  }

  /**
   The text determines the key unless one session id continues the other with a colon: for all keys of one session,
   and for any sessions whose ids hold no colon.
   */
  lemma TextsAreInjective(k: Key, l: Key)
    requires WellFormed(k) && WellFormed(l) && !Continues(k.session, l.session) && Text(k) == Text(l)
    ensures k == l
  {
    HeadsAreInjective(k, l);
    assert k.locator == "/" + k.locator[1..] && l.locator == "/" + l.locator[1..];
    if k.session != "" {
      ScopedRestsAreInjective(k.session, k.revisions, l.revisions, k.readClass + (":" + k.locator),
          l.readClass + (":" + l.locator));
      CutIsUnique(k.readClass, l.readClass, ':', k.locator, l.locator);
    } else {
      UnscopedRestsAreInjective(k.revisions.scope, k.revisions.revision, k.readClass, k.locator[1..],
                                l.revisions.scope, l.revisions.revision, l.readClass, l.locator[1..]);
    }
  }

  /** A session id that spells out another session's key, up to a path. */
  function Longer(session: Session, r: Revisions, readClass: string, path: string): Session {
    session + (":" + ("0" + (":" + ("0" + (":" + (RevisionsText(session, r) + (":" + (readClass + (":" + path)))))))))
  }

  lemma EqualOrPlainSessionsDoNotContinue(a: Session, b: Session)
    ensures a == b || (':' !in a && ':' !in b) ==> !Continues(a, b)
  {
    if StartsWith(a, b + ":") { assert a[|b|] == (b + ":")[|b|] == ':'; }
    if StartsWith(b, a + ":") { assert b[|a|] == (a + ":")[|a|] == ':'; }
  }

  // ----- The record the step system uses instead -----

  /** The revisions as a map from scopes. */
  function RevisionMap(session: Session, r: Revisions): map<Scope, nat> {
    match r
    case OfSession(whole, facet, part) => map["session:" + session := whole, SessionScope(session, facet) := part]
    case OfScope(scope, revision) => map[scope := revision]
  }

  /** The cache key of `ReadCoherence`; `code` numbers the classes with their paths and headers. */
  function Record(k: Key, code: (string, string) -> int): ReadCoherence.Key {
    ReadCoherence.Key(ReadCoherence.Stamp(k.epoch, k.session, k.sessionEpoch), k.sessionRevision,
                      RevisionMap(k.session, k.revisions), code(k.readClass, k.locator))
  }

  ghost predicate Injective(code: (string, string) -> int) {
    forall a, b, c, d :: code(a, b) == code(c, d) ==> a == c && b == d
  }

  lemma ScopeIsLonger(session: Session, facet: string)
    ensures |SessionScope(session, facet)| > |"session:" + session|
  {
  }

  lemma SessionMapsAreInjective(session: Session, r: Revisions, q: Revisions)
    requires r.OfSession? && q.OfSession? && RevisionMap(session, r) == RevisionMap(session, q)
    ensures r == q
  {
    var m, n, name := RevisionMap(session, r), RevisionMap(session, q), "session:" + session;
    ScopeIsLonger(session, r.facet);
    ScopeIsLonger(session, q.facet);
    assert m[name] == r.whole && n[name] == q.whole;
    assert SessionScope(session, r.facet) in n;
    SameHead("session:" + session + ":", r.facet, q.facet);
    assert m[SessionScope(session, r.facet)] == r.part && n[SessionScope(session, q.facet)] == q.part;
  }

  lemma ScopeMapsAreInjective(session: Session, r: Revisions, q: Revisions)
    requires r.OfScope? && q.OfScope? && RevisionMap(session, r) == RevisionMap(session, q)
    ensures r == q
  {
    assert r.scope in RevisionMap(session, q);
  }

  lemma RecordsAreInjective(k: Key, l: Key, code: (string, string) -> int)
    requires WellFormed(k) && WellFormed(l) && Injective(code) && Record(k, code) == Record(l, code)
    ensures k == l
  {
    if k.session != "" {
      SessionMapsAreInjective(k.session, k.revisions, l.revisions);
    } else {
      ScopeMapsAreInjective(k.session, k.revisions, l.revisions);
    }
  }

  /**
   Looking results and transports up by text is looking them up by record: two keys have the same text exactly when
   they have the same record, unless one session id continues the other with a colon.
   */
  lemma TextsAgreeIffRecordsDo(k: Key, l: Key, code: (string, string) -> int)
    requires WellFormed(k) && WellFormed(l) && Injective(code) && !Continues(k.session, l.session)
    ensures Text(k) == Text(l) <==> Record(k, code) == Record(l, code)
  {
    if Text(k) == Text(l) { TextsAreInjective(k, l); }
    if Record(k, code) == Record(l, code) { RecordsAreInjective(k, l, code); }
  }

  /** With colons in a session id, keys of different sessions can share a text. */
  lemma ColonsMayCollide(session: Session, r: Revisions, readClass: string, path: string)
    ensures var longer := Longer(session, r, readClass, path);
            var end := ":" + ("0" + (":" + ("0" + (":" + (RevisionsText(longer, r)
                      + (":" + (readClass + (":" + path))))))));
            Text(Key(0, session, 0, 0, r, readClass, path + end)) == Text(Key(0, longer, 0, 0, r, readClass, path))
            && session != longer
  {
    var longer := Longer(session, r, readClass, path);
    var end := ":" + ("0" + (":" + ("0" + (":" + (RevisionsText(longer, r) + (":" + (readClass + (":" + path))))))));
    assert Decimal(0) == "0";
    FiveParts(session, RevisionsText(session, r), readClass, path, end);
    assert |longer| > |session|;
  }

  lemma FiveParts(a: string, b: string, c: string, d: string, x: string)
    ensures (a + (":" + ("0" + (":" + ("0" + (":" + (b + (":" + (c + (":" + d)))))))))) + x
         == a + (":" + ("0" + (":" + ("0" + (":" + (b + (":" + (c + (":" + (d + x))))))))))
  {
    var t := c + (":" + d);
    Push(c, ":", d, x);
    Push(b, ":", t, x);
    Push("0", ":", b + (":" + t), x);
    Push("0", ":", "0" + (":" + (b + (":" + t))), x);
    Push(a, ":", "0" + (":" + ("0" + (":" + (b + (":" + t))))), x);
  }

  // ----- The scope of an unscoped read has no slash -----

  lemma {:induction false} SegmentsHaveNoSlash(path: string)
    ensures forall i :: 0 <= i < |Segments(path)| ==> '/' !in Segments(path)[i]
    decreases |path|
  {
    if path != "" {
      if path[0] == '/' {
        SegmentsHaveNoSlash(path[1..]);
      } else {
        FirstSegmentHasNoSlash(path);
        SegmentsHaveNoSlash(path[SegmentLength(path)..]);
      }
    }
  }

  lemma UnscopedScopesHaveNoSlash(path: string, suffix: string, c: Scope)
    requires c in ReadDataScopes(path, suffix, "")
    ensures '/' !in c
  {
    SegmentsHaveNoSlash(path);
  }
  // ----- The keys reads take -----

  /** A read as the client is asked for it: where, for whom, of which class, and path and headers joined. */
  datatype Call = Call(path: string, suffix: string, session: Session, readClass: string, locator: string, ttl: nat)

  function RequestOf(c: Call, code: (string, string) -> int): ReadCoherence.Request {
    ReadCoherence.Request(c.session, Elements(ReadDataScopes(c.path, c.suffix, c.session)),
                          code(c.readClass, c.locator), c.ttl)
  }

  function FacetOf(c: Call): string {
    var scope, head := SessionDataScope(c.path, c.suffix, c.session), "session:" + c.session + ":";
    if |head| <= |scope| then scope[|head|..] else ""
  }

  lemma FacetIsKnown(c: Call)
    ensures FacetOf(c) in FACETS && SessionScope(c.session, FacetOf(c)) == SessionDataScope(c.path, c.suffix, c.session)
  {
    SessionDataScopeIsFacet(c.path, c.suffix, c.session);
    var f :| f in FACETS && SessionDataScope(c.path, c.suffix, c.session) == SessionScope(c.session, f);
    assert SessionScope(c.session, f) == ("session:" + c.session + ":") + f;
  }

  function RevisionsOf(s: ReadCoherence.State, c: Call): Revisions {
    if c.session != "" then
      OfSession(ReadCoherence.Count(s.scopeRevisions, "session:" + c.session), FacetOf(c),
                ReadCoherence.Count(s.scopeRevisions, SessionDataScope(c.path, c.suffix, c.session)))
    else
      var scope := ReadDataScopes(c.path, c.suffix, "")[0];
      OfScope(scope, ReadCoherence.Count(s.scopeRevisions, scope))
  }

  /** The parts the client joins into the key, from the counters of the moment. */
  function KeyOf(s: ReadCoherence.State, c: Call): Key {
    Key(s.authEpoch, c.session, ReadCoherence.Count(s.sessionEpochs, c.session),
        ReadCoherence.SessionRevision(s, c.session), RevisionsOf(s, c), c.readClass, c.locator)
  }

  predicate Readable(c: Call) {
    Plain(c.readClass) && c.locator != "" && c.locator[0] == '/'
  }

  lemma TakenKeysAreWellFormed(s: ReadCoherence.State, c: Call)
    requires Readable(c)
    ensures WellFormed(KeyOf(s, c))
  {
    if c.session != "" {
      FacetIsKnown(c);
    } else {
      UnscopedScopesHaveNoSlash(c.path, c.suffix, ReadDataScopes(c.path, c.suffix, "")[0]);
    }
  }

  lemma RevisionsAreTaken(s: ReadCoherence.State, c: Call)
    ensures RevisionMap(c.session, RevisionsOf(s, c))
         == map scope | scope in Elements(ReadDataScopes(c.path, c.suffix, c.session))
              :: ReadCoherence.Count(s.scopeRevisions, scope)
  {
    if c.session != "" {
      FacetIsKnown(c);
      ScopeIsLonger(c.session, FacetOf(c));
    }
  }

  lemma TakenKeysAreRecords(s: ReadCoherence.State, c: Call, code: (string, string) -> int)
    ensures ReadCoherence.TakeKey(s, RequestOf(c, code)) == Record(KeyOf(s, c), code)
  {
    RevisionsAreTaken(s, c);
  }

  /**
   Two reads, each at its own moment, build the same key text exactly when they take the same record of the step
   system, unless one session id continues the other with a colon.
   */
  lemma ReadsShareTextsIffRecords(s: ReadCoherence.State, c: Call, s': ReadCoherence.State, c': Call,
                                  code: (string, string) -> int)
    requires Readable(c) && Readable(c') && Injective(code) && !Continues(c.session, c'.session)
    ensures Text(KeyOf(s, c)) == Text(KeyOf(s', c')) <==>
              ReadCoherence.TakeKey(s, RequestOf(c, code)) == ReadCoherence.TakeKey(s', RequestOf(c', code))
  {
    TakenKeysAreWellFormed(s, c);
    TakenKeysAreWellFormed(s', c');
    TakenKeysAreRecords(s, c, code);
    TakenKeysAreRecords(s', c', code);
    TextsAgreeIffRecordsDo(KeyOf(s, c), KeyOf(s', c'), code);
  }
}
