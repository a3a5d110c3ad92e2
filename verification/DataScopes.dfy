/**
 Data scopes: which scopes a read depends on and which scopes a write invalidates
 (surfaces/webui/src/api/client.ts, `readDataScopes` to `dataScopeMatches`).
 */
module DataScopes {

  type Session = string
  type Scope = string

  predicate IsSpace(c: char) {
    c in {' ', '\t', '\n', '\r', '\U{0B}', '\U{0C}', '\U{A0}', '\U{1680}', '\U{2028}', '\U{2029}', '\U{202F}',
        '\U{205F}', '\U{3000}', '\U{FEFF}'}
    || '\U{2000}' <= c <= '\U{200A}'
  }

  function TrimStart(s: string): string {
    if s != "" && IsSpace(s[0]) then TrimStart(s[1..]) else s
  }

  function TrimEnd(s: string): string {
    if s != "" && IsSpace(s[|s| - 1]) then TrimEnd(s[..|s| - 1]) else s
  }

  function Trim(s: string): string {
    TrimEnd(TrimStart(s))
  }

  /** What is trimmed off is white space, and the rest neither starts nor ends with any. */
  lemma TrimDropsOuterSpace(s: string) returns (i: nat, j: nat)
    ensures i <= j <= |s| && Trim(s) == s[i..j]
    ensures forall k :: 0 <= k < i || j <= k < |s| ==> IsSpace(s[k])
    ensures i < j ==> !IsSpace(s[i]) && !IsSpace(s[j - 1])
  {
    i := TrimStartCuts(s);
    var n := TrimEndCuts(TrimStart(s));
    j := i + n;
    assert s[i..][..n] == s[i..j];
    assert forall k :: j <= k < |s| ==> s[k] == s[i..][k - i];
  }

  lemma {:induction false} TrimStartCuts(s: string) returns (i: nat)
    ensures i <= |s| && TrimStart(s) == s[i..] && forall k :: 0 <= k < i ==> IsSpace(s[k])
    ensures i < |s| ==> !IsSpace(s[i])
  {
    i := 0;
    if s != "" && IsSpace(s[0]) {
      i := TrimStartCuts(s[1..]);
      i := i + 1;
    }
  }

  lemma {:induction false} TrimEndCuts(s: string) returns (n: nat)
    ensures n <= |s| && TrimEnd(s) == s[..n] && forall k :: n <= k < |s| ==> IsSpace(s[k])
    ensures n > 0 ==> !IsSpace(s[n - 1])
  {
    n := |s|;
    if s != "" && IsSpace(s[|s| - 1]) {
      n := TrimEndCuts(s[..|s| - 1]);
    }
  }

  predicate StartsWith(s: string, prefix: string) {
    prefix <= s
  }

  /** `dataScopeMatches`. */
  predicate DataScopeMatches(invalidated: Scope, candidate: Scope) {
    invalidated == candidate || StartsWith(candidate, invalidated + ":")
  }

  predicate AnyScopeMatches(invalidated: seq<Scope>, candidates: set<Scope>) {
    exists i, c :: 0 <= i < |invalidated| && c in candidates && DataScopeMatches(invalidated[i], c)
  }

  lemma OneMatchIsEnough(invalidated: seq<Scope>, i: nat, c: Scope, candidates: set<Scope>)
    requires i < |invalidated| && c in candidates && DataScopeMatches(invalidated[i], c)
    ensures AnyScopeMatches(invalidated, candidates)
  {
  }

  function Elements(scopes: seq<Scope>): set<Scope> {
    set x | x in scopes
  }

  // ----- Scopes from paths -----

  /** The path segments that are not empty. */
  function Segments(path: string): seq<string> {
    if path == "" then []
    else if path[0] == '/' then Segments(path[1..])
    else
      var n := SegmentLength(path);
      [path[..n]] + Segments(path[n..])
  }

  function SegmentLength(path: string): (n: nat)
    requires path != "" && path[0] != '/'
    ensures 0 < n <= |path|
  {
    if |path| == 1 || path[1] == '/' then 1 else 1 + SegmentLength(path[1..])
  }

  function Domain(path: string): string {
    var segments := Segments(path);
    if |segments| > 1 then segments[1] else "gateway"
  }

  /** The text after a leading `/name` with `name` one of the given segments: empty or a further segment. */
  predicate UnderSegment(suffix: string, segment: string) {
    StartsWith(suffix, segment) && (|suffix| == |segment| || suffix[|segment|] == '/')
  }

  predicate UnderAny(suffix: string, segments: set<string>) {
    exists segment :: segment in segments && UnderSegment(suffix, segment)
  }

  function SessionScope(session: Session, facet: string): Scope {
    "session:" + session + ":" + facet
  }

  /** `sessionDataScope`; `suffix` is the path with its `/api/sessions/<id>` head removed. */
  function SessionDataScope(path: string, suffix: string, session: Session): Scope {
    if StartsWith(path, "/api/runtime/executions/") then SessionScope(session, "execution")
    else if UnderAny(suffix, {"/messages"}) || suffix == "/history-index" then SessionScope(session, "transcript")
    else if UnderAny(suffix, {"/execution", "/evidence", "/inputs", "/turns"}) || suffix == "/cancel" ||
        suffix == "/compact" then
      SessionScope(session, "execution")
    else if UnderAny(suffix, {"/attachments"}) then SessionScope(session, "resources")
    else SessionScope(session, "metadata")
  }

  /** `readDataScopes`. */
  function ReadDataScopes(path: string, suffix: string, session: Session): seq<Scope> {
    if session != "" then ["session:" + session, SessionDataScope(path, suffix, session)]
    else if path == "/api/sessions" || StartsWith(path, "/api/sessions/search") then ["sessions:catalog"]
    else ["domain:" + Domain(path)]
  }

  /** `/api/sessions/<one segment>/attach` or `/detach`. */
  predicate IsAttachOrDetach(path: string) {
    && StartsWith(path, "/api/sessions/")
    && var rest := path[|"/api/sessions/"|..];
       rest != "" && rest[0] != '/' && rest[SegmentLength(rest)..] in {"/attach", "/detach"}
  }

  predicate IsProjectionNeutralControlWrite(path: string) {
    IsAttachOrDetach(path)
    || path in {"/api/runtime/session-leases/acquire", "/api/runtime/session-leases/release"}
  }

  /** `writeInvalidationScopes`. */
  function WriteInvalidationScopes(path: string, suffix: string, session: Session): seq<Scope> {
    if IsProjectionNeutralControlWrite(path) then []
    else if session == "" then
      if path == "/api/sessions" then ["sessions:catalog"] else ["domain:" + Domain(path)]
    else if suffix == "" || suffix == "/" then ["session:" + session, "sessions:catalog"]
    else if UnderAny(suffix, {"/messages"}) then
      [SessionScope(session, "transcript"), SessionScope(session, "execution"), "sessions:catalog"]
    else if suffix == "/branch" then ["sessions:catalog"]
    else if suffix == "/compact" then [SessionScope(session, "transcript"), SessionScope(session, "metadata")]
    else if UnderAny(suffix, {"/attachments"}) then [SessionScope(session, "resources")]
    else if UnderAny(suffix, {"/inputs", "/turns"}) || suffix == "/cancel" || StartsWith(suffix, "/context/") then
      [SessionScope(session, "execution")]
    else [SessionDataScope(path, suffix, session)]
  }

  const FACETS := {"execution", "transcript", "resources", "metadata"}

  lemma PrefixCancels(head: string, a: string, b: string)
    requires head + a <= head + b
    ensures a <= b
  {
    assert (head + a)[|head|..] == a && (head + b)[|head|..] == b;
  }

  lemma FacetsDoNotNest(session: Session, f: string, g: string)
    requires f in FACETS && g in FACETS
    ensures !StartsWith(SessionScope(session, g), SessionScope(session, f) + ":")
    ensures !DataScopeMatches(SessionScope(session, f), "session:" + session)
  {
    var head := "session:" + session + ":";
    assert SessionScope(session, f) + ":" == head + (f + ":") && SessionScope(session, g) == head + g;
    assert (f + ":")[0] == f[0] && |f + ":"| == |f| + 1 && (f == g || f[0] != g[0]);
    if head + (f + ":") <= head + g { PrefixCancels(head, f + ":", g); }
  }

  lemma CatalogIsNoSessionScope(session: Session, rest: string)
    ensures !DataScopeMatches("sessions:catalog", "session:" + session + rest)
  {
    assert ("session:" + session + rest)[7] == ':' && ("sessions:catalog" + ":")[7] == 's';
  }

  /** The scopes generated for a session: the session itself, one of its facets, or the catalog. */
  ghost predicate NamesSession(session: Session, scope: Scope) {
    scope == "session:" + session || scope == "sessions:catalog" || IsFacet(session, scope)
  }

  ghost predicate IsFacet(session: Session, scope: Scope) {
    exists f :: f in FACETS && scope == SessionScope(session, f)
  }

  lemma SessionDataScopeIsFacet(path: string, suffix: string, session: Session)
    ensures IsFacet(session, SessionDataScope(path, suffix, session))
  {
  }

  lemma WriteScopesOfSession(path: string, suffix: string, session: Session, w: Scope)
    requires session != "" && w in WriteInvalidationScopes(path, suffix, session)
    ensures NamesSession(session, w)
  {
    SessionDataScopeIsFacet(path, suffix, session);
  }

  lemma MatchIsMember(session: Session, w: Scope, facet: Scope, c: Scope)
    requires NamesSession(session, w) && IsFacet(session, facet)
    requires c in {"session:" + session, facet} && DataScopeMatches(w, c)
    ensures w in {"session:" + session, facet}
  {
    var g :| g in FACETS && facet == SessionScope(session, g);
    CatalogIsNoSessionScope(session, "");
    CatalogIsNoSessionScope(session, ":" + g);
    assert "session:" + session + "" == "session:" + session;
    assert "session:" + session + (":" + g) == SessionScope(session, g);
    if IsFacet(session, w) {
      var f :| f in FACETS && w == SessionScope(session, f);
      FacetsDoNotNest(session, f, g);
    }
  }

  /**
   A generated write scope that matches a scope of a read of the same session, by equality or as a prefix,
   is itself in that read's list: bumping only the written scopes reaches every such read.
   */
  lemma GeneratedMatchIsMember(readPath: string, readSuffix: string, writePath: string, writeSuffix: string,
                               session: Session, w: Scope, c: Scope)
    requires session != ""
    requires w in WriteInvalidationScopes(writePath, writeSuffix, session)
    requires c in ReadDataScopes(readPath, readSuffix, session) && DataScopeMatches(w, c)
    ensures w in ReadDataScopes(readPath, readSuffix, session)
  {
    WriteScopesOfSession(writePath, writeSuffix, session, w);
    SessionDataScopeIsFacet(readPath, readSuffix, session);
    MatchIsMember(session, w, SessionDataScope(readPath, readSuffix, session), c);
  }

  /**
   Without a session a matching write scope is in the read's list unless both are domains and the read's continues
   the written one with a colon: such a read loses its stored results but keeps a current revision.
   */
  lemma UnscopedMatchIsMemberIff(readPath: string, readSuffix: string, writePath: string, writeSuffix: string, w: Scope,
      c: Scope)
    requires w in WriteInvalidationScopes(writePath, writeSuffix, "")
    requires c in ReadDataScopes(readPath, readSuffix, "") && DataScopeMatches(w, c)
    ensures w !in ReadDataScopes(readPath, readSuffix, "") <==>
              w == "domain:" + Domain(writePath) && c == "domain:" + Domain(readPath)
              && StartsWith(Domain(readPath), Domain(writePath) + ":")
  {
    var written, viewed := Domain(writePath), Domain(readPath);
    assert ("sessions:catalog")[0] == 's' && ("domain:" + viewed)[0] == 'd' && ("domain:" + written)[0] == 'd';
    assert "domain:" + written + ":" == "domain:" + (written + ":");
    if w == "domain:" + written && c == "domain:" + viewed {
      if "domain:" + (written + ":") <= "domain:" + viewed {
        PrefixCancels("domain:", written + ":", viewed);
      }
      if StartsWith(viewed, written + ":") { assert |c| > |w|; }
    }
  }

  // ----- A write of one session, a read of another -----

  /**
   The read's domain, or its session, continues the written one with a colon: the scopes of such a write can match a
   scope of the read without being in its list.
   */
  predicate Nests(writePath: string, writeSession: Session, readPath: string, readSession: Session) {
    if writeSession == "" then readSession == "" && StartsWith(Domain(readPath), Domain(writePath) + ":")
    else StartsWith(readSession, writeSession + ":")
  }

  /** A write and a read nest only if both belong to sessions, or neither does. */
  lemma NestingIsWithinOneKind(writePath: string, writeSession: Session, readPath: string, readSession: Session)
    requires Nests(writePath, writeSession, readPath, readSession)
    ensures writeSession == "" <==> readSession == ""
  {
    assert |writeSession + ":"| > 0;
  }

  /** `tail` is empty, or a colon and a facet. */
  lemma ContinuesOrSame(session: Session, other: Session, tail: string)
    requires session + ":" <= other + tail && forall i :: 0 < i < |tail| ==> tail[i] != ':'
    ensures session == other || StartsWith(other, session + ":")
  {
    var whole := other + tail;
    assert whole[|session|] == ':' && whole[..|session|] == session;
    assert forall i :: |other| < i < |whole| ==> whole[i] == tail[i - |other|];
    assert whole[..|session|] == other[..|session|];
  }

  lemma SessionPrefix(session: Session, head: string, whole: string)
    requires ("session:" + session + head) + ":" <= "session:" + whole && (head == "" || head[0] == ':')
    ensures session + ":" <= whole
  {
    assert ("session:" + session + head) + ":" == "session:" + (session + (head + ":"));
    PrefixCancels("session:", session + (head + ":"), whole);
    assert (head + ":")[0] == ':';
    assert (session + (head + ":"))[..|session| + 1] == session + ":";
  }

  /** Every scope generated for a session is its name, possibly with a facet, except the catalog. */
  lemma ScopeParts(session: Session, scope: Scope) returns (tail: string)
    requires NamesSession(session, scope) && scope != "sessions:catalog"
    ensures scope == "session:" + session + tail
    ensures (tail == "" || tail[0] == ':') && forall i :: 0 < i < |tail| ==> tail[i] != ':'
  {
    if scope == "session:" + session {
      tail := "";
    } else {
      var f :| f in FACETS && scope == SessionScope(session, f);
      tail := ":" + f;
    }
  }

  lemma ForeignMatch(session: Session, other: Session, w: Scope, c: Scope)
    requires session != other && NamesSession(session, w) && NamesSession(other, c) && c != "sessions:catalog"
    requires DataScopeMatches(w, c) && w != c
    ensures StartsWith(other, session + ":")
  {
    var tail := ScopeParts(other, c);
    if w == "sessions:catalog" {
      CatalogIsNoSessionScope(other, tail);
    } else {
      var head := ScopeParts(session, w);
      assert "session:" + other + tail == "session:" + (other + tail);
      SessionPrefix(session, head, other + tail);
      ContinuesOrSame(session, other, tail);
    }
  }

  /** A read without a session is reached by a session's writes through the catalog only. */
  lemma UnscopedReadMatch(session: Session, path: string, suffix: string, w: Scope, c: Scope)
    requires NamesSession(session, w) && c in ReadDataScopes(path, suffix, "") && DataScopeMatches(w, c)
    ensures w == c
  {
    assert ("domain:" + Domain(path))[0] == 'd' && ("sessions:catalog")[0] == 's' && ("sessions:catalog")[7] == 's';
    if w != "sessions:catalog" {
      var head := ScopeParts(session, w);
    }
  }

  /** A write without a session matches no scope of a session's reads. */
  lemma UnscopedWritesMissSessions(writePath: string, writeSuffix: string, session: Session, w: Scope, c: Scope)
    requires w in WriteInvalidationScopes(writePath, writeSuffix, "")
    requires NamesSession(session, c) && c != "sessions:catalog"
    ensures !DataScopeMatches(w, c)
  {
    var tail := ScopeParts(session, c);
    CatalogIsNoSessionScope(session, tail);
    assert ("domain:" + Domain(writePath))[0] == 'd' && c[0] == 's';
  }

  /** What a session's read lists is its name and a facet, and never the catalog. */
  lemma ReadScopesOfSession(path: string, suffix: string, session: Session, c: Scope)
    requires session != "" && c in ReadDataScopes(path, suffix, session)
    ensures NamesSession(session, c) && c != "sessions:catalog"
  {
    SessionDataScopeIsFacet(path, suffix, session);
    CatalogIsNoSessionScope(session, "");
    assert "session:" + session + "" == "session:" + session;
    if IsFacet(session, c) {
      var f :| f in FACETS && c == SessionScope(session, f);
      CatalogIsNoSessionScope(session, ":" + f);
      assert "session:" + session + (":" + f) == c;
    }
  }

  /** For a write and a read of any sessions or none: a matching scope is in the read's list unless the two nest. */
  lemma AnyMatchIsMember(writePath: string, writeSuffix: string, writeSession: Session, readPath: string,
                         readSuffix: string, readSession: Session, w: Scope, c: Scope)
    requires w in WriteInvalidationScopes(writePath, writeSuffix, writeSession)
    requires c in ReadDataScopes(readPath, readSuffix, readSession) && DataScopeMatches(w, c)
    ensures w in ReadDataScopes(readPath, readSuffix, readSession)
            || Nests(writePath, writeSession, readPath, readSession)
  {
    if writeSession == "" {
      if readSession == "" {
        UnscopedMatchIsMemberIff(readPath, readSuffix, writePath, writeSuffix, w, c);
      } else {
        ReadScopesOfSession(readPath, readSuffix, readSession, c);
        UnscopedWritesMissSessions(writePath, writeSuffix, readSession, w, c);
      }
    } else if writeSession == readSession {
      GeneratedMatchIsMember(readPath, readSuffix, writePath, writeSuffix, readSession, w, c);
    } else {
      WriteScopesOfSession(writePath, writeSuffix, writeSession, w);
      if readSession == "" {
        UnscopedReadMatch(writeSession, readPath, readSuffix, w, c);
      } else if w != c {
        ReadScopesOfSession(readPath, readSuffix, readSession, c);
        ForeignMatch(writeSession, readSession, w, c);
      }
    }
  }

  // ----- Domains and sessions that nest -----

  lemma HeadKeepsMatch(head: string, a: string, b: string)
    requires StartsWith(b, a + ":")
    ensures DataScopeMatches(head + a, head + b) && head + a != head + b
  {
    assert (head + a) + ":" == head + (a + ":");
    assert (head + b)[..|head| + |a| + 1] == head + (a + ":");
    assert |head + b| > |head + a|;
  }

  lemma NestedDomainsMatch(writePath: string, readPath: string)
    requires Nests(writePath, "", readPath, "")
    ensures var w, c := "domain:" + Domain(writePath), "domain:" + Domain(readPath); DataScopeMatches(w, c) && w != c
  {
    HeadKeepsMatch("domain:", Domain(writePath), Domain(readPath));
  }

  lemma NestedSessionMatches(session: Session, readSession: Session)
    requires StartsWith(readSession, session + ":")
    ensures DataScopeMatches("session:" + session, "session:" + readSession)
  {
    HeadKeepsMatch("session:", session, readSession);
  }

  lemma ReadScopesAreLong(path: string, suffix: string, session: Session, c: Scope)
    requires session != "" && c in ReadDataScopes(path, suffix, session)
    ensures |c| >= |"session:" + session| && c != "sessions:catalog"
  {
    ReadScopesOfSession(path, suffix, session, c);
    var tail := ScopeParts(session, c);
  }

  /** A write to a session itself lists no scope of a read of a session that continues its name. */
  lemma NestedSessionIsUnlisted(ws: seq<Scope>, session: Session, path: string, suffix: string, readSession: Session)
    requires session != "" && StartsWith(readSession, session + ":")
    requires ws == ["session:" + session, "sessions:catalog"]
    ensures AnyScopeMatches(ws, Elements(ReadDataScopes(path, suffix, readSession)))
    ensures forall w :: w in ws ==> w !in Elements(ReadDataScopes(path, suffix, readSession))
  {
    NestedSessionMatches(session, readSession);
    OneMatchIsEnough(ws, 0, "session:" + readSession, Elements(ReadDataScopes(path, suffix, readSession)));
    forall c <- ReadDataScopes(path, suffix, readSession) ensures c !in ws {
      ReadScopesAreLong(path, suffix, readSession, c);
    }
  }


  lemma {:induction false} SegmentLengthOf(segment: string, rest: string)
    requires segment != "" && '/' !in segment && (rest == "" || rest[0] == '/')
    ensures SegmentLength(segment + rest) == |segment|
  {
    var whole := segment + rest;
    assert whole[0] == segment[0];
    if |segment| == 1 {
      assert |whole| == 1 || whole[1] == rest[0];
    } else {
      assert whole[1] == segment[1] && whole[1..] == segment[1..] + rest;
      SegmentLengthOf(segment[1..], rest);
    }
  }

  lemma {:induction false} FirstSegmentHasNoSlash(path: string)
    requires path != "" && path[0] != '/'
    ensures '/' !in path[..SegmentLength(path)]
  {
    if |path| > 1 && path[1] != '/' {
      FirstSegmentHasNoSlash(path[1..]);
      assert path[..SegmentLength(path)] == [path[0]] + path[1..][..SegmentLength(path[1..])];
    }
  }

  /** The domain of a path is its second segment, whatever follows. */
  lemma DomainIsTheSecondSegment(area: string, domain: string, rest: string)
    requires area != "" && '/' !in area && domain != "" && '/' !in domain && (rest == "" || rest[0] == '/')
    ensures Domain("/" + (area + ("/" + (domain + rest)))) == domain
  {
    SegmentsCut(domain, rest);
    SegmentsCut(area, "/" + (domain + rest));
    assert ("/" + (domain + rest))[1..] == domain + rest;
    var path := "/" + (area + ("/" + (domain + rest)));
    assert path[1..] == area + ("/" + (domain + rest));
    assert Segments(path) == [area] + ([domain] + Segments(rest));
  }

  lemma SegmentsCut(segment: string, rest: string)
    requires segment != "" && '/' !in segment && (rest == "" || rest[0] == '/')
    ensures Segments(segment + rest) == [segment] + Segments(rest)
  {
    SegmentLengthOf(segment, rest);
    var whole := segment + rest;
    assert whole[..|segment|] == segment && whole[|segment|..] == rest && whole[0] == segment[0];
  }

  /** Without a second segment it is the gateway. */
  lemma ShortPathsAreTheGateway(area: string)
    requires '/' !in area
    ensures Domain("/" + area) == "gateway"
  {
    assert ("/" + area)[1..] == area;
    if area != "" {
      LoneSegment(area);
    } else {
      assert Segments("/") == Segments("");
    }
  }

  lemma DomainOfPath(area: string, domain: string)
    requires area != "" && '/' !in area && domain != "" && '/' !in domain
    ensures Domain("/" + (area + ("/" + domain))) == domain
  {
    DomainIsTheSecondSegment(area, domain, "");
    assert domain + "" == domain;
  }

  lemma LoneSegment(segment: string)
    requires segment != "" && '/' !in segment
    ensures Segments(segment) == [segment]
  {
    SegmentLengthOf(segment, "");
    assert segment + "" == segment && segment[|segment|..] == "" && segment[..|segment|] == segment;
    assert Segments(segment) == [segment] + [];
  }

  /** Such paths exist for every domain: a segment may contain colons. */
  lemma DomainsNest(area: string, domain: string, rest: string)
    requires area != "" && '/' !in area && domain != "" && '/' !in domain && '/' !in rest
    ensures var written, viewed := "/" + (area + ("/" + domain)), "/" + (area + ("/" + (domain + ":" + rest)));
            StartsWith(Domain(viewed), Domain(written) + ":") &&
                DataScopeMatches("domain:" + Domain(written), "domain:" + Domain(viewed))
  {
    DomainOfPath(area, domain);
    DomainOfPath(area, domain + ":" + rest);
    assert "domain:" + (domain + ":" + rest) == ("domain:" + domain + ":") + rest;
  }
}
