/** Route keys and conversation ids of the workbench (server/workbench-route.js).

    Strings are sequences of UTF-16 code units. A value that is not a string behaves like the empty string. A
    result None stands for the URIError that the encoding of a lone surrogate throws.
  */
module WorkbenchRoutes {
  import opened Text
  import opened PercentEncoding
  import Utf8

  const COLON: Unit := 0x3A
  const MAX_ID_LENGTH := 4096

  function Yeaft(): Units { FromAscii("yeaft") }

  function ClaudeCode(): Units { FromAscii("claude-code") }

  function Copilot(): Units { FromAscii("copilot") }

  function WorkCenter(): Units { FromAscii("work-center") }

  function Prefix(): Units { FromAscii("_workbench:") }

  datatype Scope = Main | FilesFolderPicker | GitFolderPicker

  function ScopeName(scope: Scope): Units {
    match scope
    case Main => FromAscii("main")
    case FilesFolderPicker => FromAscii("files-folder-picker")
    case GitFolderPicker => FromAscii("git-folder-picker")
  }

  datatype Route = Route(runtimeProvider: Units, agentId: Units, sessionId: Units, workItemId: Units)

  // ---------------------------------------------------------------- clean

  predicate IsSpace(u: Unit) {
    !(0xD800 <= u < 0xE000) && IsWhitespace(u as char)
  }

  function TrimUnitsStart(s: Units): Units {
    if s != [] && IsSpace(s[0]) then TrimUnitsStart(s[1..]) else s
  }

  function TrimUnitsEnd(s: Units): Units {
    if s != [] && IsSpace(s[|s| - 1]) then TrimUnitsEnd(s[..|s| - 1]) else s
  }

  function Clean(s: Units, maxLength: nat): Units {
    var result := TrimUnitsEnd(TrimUnitsStart(s));
    if |result| <= maxLength then result else []
  }

  predicate IsTrimmed(s: Units) {
    s == [] || (!IsSpace(s[0]) && !IsSpace(s[|s| - 1]))
  }

  lemma {:induction false} TrimStartLeaves(s: Units)
    ensures var t := TrimUnitsStart(s); t == [] || !IsSpace(t[0])
  {
    if s != [] && IsSpace(s[0]) {
      TrimStartLeaves(s[1..]);
    }
  }

  lemma {:induction false} TrimEndLeaves(s: Units)
    ensures var t := TrimUnitsEnd(s); t <= s && (t == [] || !IsSpace(t[|t| - 1]))
  {
    if s != [] && IsSpace(s[|s| - 1]) {
      TrimEndLeaves(s[..|s| - 1]);
    }
  }

  lemma CleanIsTrimmed(s: Units, maxLength: nat)
    ensures IsTrimmed(Clean(s, maxLength)) && |Clean(s, maxLength)| <= maxLength
  {
    TrimStartLeaves(s);
    TrimEndLeaves(TrimUnitsStart(s));
  }

  predicate IsBlankUnits(s: Units) {
    forall i :: 0 <= i < |s| ==> IsSpace(s[i])
  }

  lemma {:induction false} TrimUnitsStartIs(s: Units) returns (before: Units)
    ensures s == before + TrimUnitsStart(s) && IsBlankUnits(before)
  {
    if s != [] && IsSpace(s[0]) {
      before := TrimUnitsStartIs(s[1..]);
      before := [s[0]] + before;
    } else {
      before := [];
    }
  }

  lemma {:induction false} TrimUnitsEndIs(s: Units) returns (after: Units)
    ensures s == TrimUnitsEnd(s) + after && IsBlankUnits(after)
  {
    if s != [] && IsSpace(s[|s| - 1]) {
      var front, last := s[..|s| - 1], s[|s| - 1];
      after := TrimUnitsEndIs(front);
      assert s == front + [last] && TrimUnitsEnd(front) + after + [last] == TrimUnitsEnd(front) + (after + [last]);
      after := after + [last];
    } else {
      after := [];
    }
  }

  /** Cleaning takes away the space around a value, and all of a value that is too long. */
  lemma CleanIs(s: Units, maxLength: nat) returns (before: Units, value: Units, after: Units)
    ensures s == before + value + after && IsBlankUnits(before) && IsBlankUnits(after) && IsTrimmed(value)
    ensures Clean(s, maxLength) == if |value| <= maxLength then value else []
  {
    before := TrimUnitsStartIs(s);
    after := TrimUnitsEndIs(TrimUnitsStart(s));
    value := TrimUnitsEnd(TrimUnitsStart(s));
    TrimStartLeaves(s);
    TrimEndLeaves(TrimUnitsStart(s));
    assert before + (value + after) == before + value + after;
  }

  lemma CleanLeavesTrimmed(s: Units, maxLength: nat)
    requires IsTrimmed(s)
    ensures Clean(s, maxLength) == if |s| <= maxLength then s else []
  {
  }

  // ---------------------------------------------------------------- keys and ids

  function Provider(route: Route): Units {
    Clean(route.runtimeProvider, 32)
  }

  function AgentId(route: Route): Units {
    Clean(route.agentId, 300)
  }

  function OwnerId(route: Route): Units {
    if Provider(route) == WorkCenter() then Clean(route.workItemId, 300) else Clean(route.sessionId, 300)
  }

  predicate IsProvider(p: Units) {
    p in {Yeaft(), ClaudeCode(), Copilot(), WorkCenter()}
  }

  predicate IsValid(route: Route) {
    IsProvider(Provider(route)) && AgentId(route) != [] && OwnerId(route) != []
  }

  function RouteKey(route: Route): Option<Units> {
    if !IsValid(route) then Some([])
    else
      var p, a, o := Encode(Provider(route)), Encode(AgentId(route)), Encode(OwnerId(route));
      if p.None? || a.None? || o.None? then None
      else Some(Join([p.value, a.value, o.value], COLON))
  }

  function Suffix(scope: Scope): Units {
    if scope == Main then [] else [COLON] + ScopeName(scope)
  }

  function ConversationId(route: Route, scope: Scope): Option<Units> {
    match RouteKey(route)
    case None => None
    case Some(key) => if key == [] then Some([]) else Some(Prefix() + key + Suffix(scope))
  }

  function RouteOf(p: Units, a: Units, o: Units): Route {
    if p == WorkCenter() then Route(p, a, [], o) else Route(p, a, o, [])
  }

  /** An expected agent id of [] accepts every agent. */
  function RouteKeyFromParts(parts: seq<Units>, expectedAgentId: Units): Units
    requires |parts| >= 3
  {
    var key := Join(parts[..3], COLON);
    var p, a, o := Decode(parts[0]), Decode(parts[1]), Decode(parts[2]);
    if p.None? || a.None? || o.None? then []
    else if expectedAgentId != [] && a.value != expectedAgentId then []
    else if RouteKey(RouteOf(p.value, a.value, o.value)) == Some(key) then key
    else []
  }

  function RouteKeyFromConversationId(conversationId: Units, expectedAgentId: Units): Units {
    var raw := Clean(conversationId, MAX_ID_LENGTH);
    if !(Prefix() <= raw) then []
    else
      var parts := Split(raw[|Prefix()|..], COLON);
      if |parts| < 3 then [] else RouteKeyFromParts(parts, expectedAgentId)
  }

  // ---------------------------------------------------------------- proofs

  lemma EncodedIsTrimmed(s: Units)
    requires IsEncoded(s)
    ensures IsTrimmed(s) && COLON !in s
  {
    if s != [] {
      UnreservedIsNoSpace(s[0]);
      UnreservedIsNoSpace(s[|s| - 1]);
    }
  }

  lemma UnreservedIsNoSpace(u: Unit)
    requires u == PERCENT || IsUnreserved(u)
    ensures !IsSpace(u) && u != COLON
  {
  }

  /** The encoded parts of a route. */
  ghost predicate AreParts(route: Route, p: Units, a: Units, o: Units) {
    Encode(Provider(route)) == Some(p) && Encode(AgentId(route)) == Some(a) && Encode(OwnerId(route)) == Some(o)
  }

  /** No part of a key contains a colon. */
  lemma PartsAreEncoded(route: Route, p: Units, a: Units, o: Units)
    requires IsValid(route) && AreParts(route, p, a, o)
    ensures IsEncoded(p) && IsEncoded(a) && IsEncoded(o) && p != [] && o != []
    ensures COLON !in p && COLON !in a && COLON !in o
  {
    EncodedLooks(Provider(route));
    EncodedLooks(AgentId(route));
    EncodedLooks(OwnerId(route));
    EncodedIsTrimmed(p);
    EncodedIsTrimmed(a);
    EncodedIsTrimmed(o);
  }

  lemma JoinThree(p: Units, a: Units, o: Units)
    requires COLON !in p && COLON !in a && COLON !in o
    ensures Join([p, a, o], COLON) == p + [COLON] + (a + [COLON] + o)
    ensures Split(Join([p, a, o], COLON), COLON) == [p, a, o]
  {
    JoinCons(p, [a, o], COLON);
    JoinCons(a, [o], COLON);
    assert [p] + [a, o] == [p, a, o] && [a] + [o] == [a, o];
    assert forall part :: part in [p, a, o] ==> part == p || part == a || part == o;
    SplitJoin([p, a, o], COLON);
  }

  lemma KeyParts(route: Route) returns (p: Units, a: Units, o: Units)
    requires IsValid(route) && RouteKey(route).Some?
    ensures AreParts(route, p, a, o) && IsEncoded(o) && o != []
    ensures var key := RouteKey(route).value;
            key == Join([p, a, o], COLON) && Split(key, COLON) == [p, a, o] && key == p + [COLON] + (a + [COLON] + o)
  {
    p, a, o := Encode(Provider(route)).value, Encode(AgentId(route)).value, Encode(OwnerId(route)).value;
    PartsAreEncoded(route, p, a, o);
    JoinThree(p, a, o);
  }

  /** Two valid routes with the same key name the same provider, agent and owner. */
  lemma KeysAreInjective(r: Route, s: Route)
    requires IsValid(r) && IsValid(s) && RouteKey(r).Some? && RouteKey(r) == RouteKey(s)
    ensures Provider(r) == Provider(s) && AgentId(r) == AgentId(s) && OwnerId(r) == OwnerId(s)
  {
    var p, a, o := KeyParts(r);
    var p', a', o' := KeyParts(s);
    var parts: seq<Units>, parts': seq<Units> := [p, a, o], [p', a', o'];
    assert parts == parts' && parts[0] == parts'[0] && parts[1] == parts'[1] && parts[2] == parts'[2];
    EncodeIsInjective(Provider(r), Provider(s));
    EncodeIsInjective(AgentId(r), AgentId(s));
    EncodeIsInjective(OwnerId(r), OwnerId(s));
  }

  lemma PartsOfRoute(p: Units, a: Units, o: Units)
    requires IsTrimmed(p) && IsTrimmed(a) && IsTrimmed(o) && |p| <= 32 && |a| <= 300 && |o| <= 300
    ensures var route := RouteOf(p, a, o); Provider(route) == p && AgentId(route) == a && OwnerId(route) == o
  {
    CleanLeavesTrimmed(p, 32);
    CleanLeavesTrimmed(a, 300);
    CleanLeavesTrimmed(o, 300);
  }

  lemma JoinOfThree(p: Units, a: Units, o: Units)
    ensures Join([p, a, o], COLON) == p + [COLON] + a + [COLON] + o
  {
    JoinCons(p, [a, o], COLON);
    JoinCons(a, [o], COLON);
    assert [p] + [a, o] == [p, a, o] && [a] + [o] == [a, o];
    assert p + [COLON] + (a + [COLON] + o) == p + [COLON] + a + [COLON] + o;
  }

  /** Every provider, agent and owner makes a valid route, if they are trimmed, not empty and at most 300 long; its key
      is made of their encodings. */
  lemma RoutesAreValid(p: Units, a: Units, o: Units)
    requires p in {FromAscii("yeaft"), FromAscii("claude-code"), FromAscii("copilot"), FromAscii("work-center")}
    requires IsTrimmed(a) && IsTrimmed(o) && 0 < |a| <= 300 && 0 < |o| <= 300
    ensures var route := RouteOf(p, a, o);
            && IsValid(route) && Provider(route) == p && AgentId(route) == a && OwnerId(route) == o
            && (Encode(p).Some? && Encode(a).Some? && Encode(o).Some? ==>
                  RouteKey(route) == Some(Encode(p).value + [COLON] + Encode(a).value + [COLON] + Encode(o).value))
  {
    NamesAreTrimmed(p);
    PartsOfRoute(p, a, o);
    if Encode(p).Some? && Encode(a).Some? && Encode(o).Some? {
      JoinOfThree(Encode(p).value, Encode(a).value, Encode(o).value);
    }
  }

  lemma NamesAreTrimmed(p: Units)
    requires p in {FromAscii("yeaft"), FromAscii("claude-code"), FromAscii("copilot"), FromAscii("work-center")}
    ensures IsTrimmed(p) && |p| <= 32
  {
    assert |"yeaft"| == 5 && |"claude-code"| == 11 && |"copilot"| == 7 && |"work-center"| == 11;
    assert !IsSpace('y' as int) && !IsSpace('t' as int) && !IsSpace('c' as int) && !IsSpace('e' as int);
    assert !IsSpace('w' as int) && !IsSpace('r' as int);
  }

  /** A route made of cleaned parts has the same key. */
  lemma SameKey(route: Route)
    requires IsValid(route)
    ensures RouteKey(RouteOf(Provider(route), AgentId(route), OwnerId(route))) == RouteKey(route)
  {
    var p, a, o := Provider(route), AgentId(route), OwnerId(route);
    CleanIsTrimmed(route.runtimeProvider, 32);
    CleanIsTrimmed(route.agentId, 300);
    CleanIsTrimmed(route.workItemId, 300);
    CleanIsTrimmed(route.sessionId, 300);
    CleanLeavesTrimmed(p, 32);
    CleanLeavesTrimmed(a, 300);
    CleanLeavesTrimmed(o, 300);
  }

  lemma PartsOfKey(route: Route, p: Units, a: Units, o: Units, parts: seq<Units>, expectedAgentId: Units)
    requires IsValid(route) && RouteKey(route) == Some(Join([p, a, o], COLON)) && AreParts(route, p, a, o)
    requires |parts| >= 3 && parts[..3] == [p, a, o]
    ensures RouteKeyFromParts(parts, expectedAgentId)
         == if expectedAgentId == [] || expectedAgentId == AgentId(route) then RouteKey(route).value else []
  {
    var three: seq<Units> := [p, a, o];
    assert parts[0] == three[0] && parts[1] == three[1] && parts[2] == three[2];
    DecodeEncode(Provider(route));
    DecodeEncode(AgentId(route));
    DecodeEncode(OwnerId(route));
    SameKey(route);
  }

  lemma IdIsTrimmed(key: Units, scope: Scope)
    requires key != [] && !IsSpace(key[|key| - 1])
    ensures IsTrimmed(Prefix() + (key + Suffix(scope)))
  {
    var id := Prefix() + (key + Suffix(scope));
    assert id[0] == 0x5F;
    UnreservedIsNoSpace(0x5F);
    if scope == Main {
      assert id[|id| - 1] == key[|key| - 1];
    } else {
      assert id[|id| - 1] == ScopeName(scope)[|ScopeName(scope)| - 1] == 0x72;
      UnreservedIsNoSpace(0x72);
    }
  }

  /** The parts of a key stay the first parts when a scope follows. */
  lemma SplitId(key: Units, scope: Scope, three: seq<Units>)
    requires Split(key, COLON) == three && |three| == 3
    ensures |Split(key + Suffix(scope), COLON)| >= 3 && Split(key + Suffix(scope), COLON)[..3] == three
  {
    if scope == Main {
      assert key + [] == key && three[..3] == three;
    } else {
      SplitConcat(key, COLON, ScopeName(scope));
      assert key + Suffix(scope) == key + [COLON] + ScopeName(scope);
      assert (three + Split(ScopeName(scope), COLON))[..3] == three;
    }
  }

  lemma ParseTrimmed(text: Units, expectedAgentId: Units)
    requires IsTrimmed(Prefix() + text)
    ensures RouteKeyFromConversationId(Prefix() + text, expectedAgentId)
         == if |Prefix() + text| <= MAX_ID_LENGTH && |Split(text, COLON)| >= 3
            then RouteKeyFromParts(Split(text, COLON), expectedAgentId) else []
  {
    var id := Prefix() + text;
    CleanLeavesTrimmed(id, MAX_ID_LENGTH);
    assert Prefix() <= id && id[|Prefix()|..] == text;
    assert !(Prefix() <= []);
  }

  /** Parsing the id made for a route, in any scope, gives back the route's key exactly if the id has at most 4096
      code units and the expected agent, if there is one, is the route's. */
  lemma ParseGenerated(route: Route, scope: Scope, expectedAgentId: Units)
    requires IsValid(route) && RouteKey(route).Some?
    ensures ConversationId(route, scope).Some? && RouteKey(route).value != []
    ensures RouteKeyFromConversationId(ConversationId(route, scope).value, expectedAgentId)
         == if |ConversationId(route, scope).value| <= MAX_ID_LENGTH
               && (expectedAgentId == [] || expectedAgentId == AgentId(route))
            then RouteKey(route).value else []
  {
    var key := RouteKey(route).value;
    var p, a, o := KeyParts(route);
    assert key[|key| - 1] == o[|o| - 1];
    UnreservedIsNoSpace(o[|o| - 1]);
    IdIsTrimmed(key, scope);
    var text := key + Suffix(scope);
    assert Prefix() + key + Suffix(scope) == Prefix() + text;
    ParseTrimmed(text, expectedAgentId);
    SplitId(key, scope, [p, a, o]);
    PartsOfKey(route, p, a, o, Split(text, COLON), expectedAgentId);
  }

  predicate IsAsciiId(s: Units) {
    forall i :: 0 <= i < |s| ==> s[i] < 0x80
  }

  /** With ASCII ids the id always fits. */
  lemma AsciiIdsFit(route: Route, scope: Scope)
    requires IsValid(route) && RouteKey(route).Some? && IsAsciiId(AgentId(route)) && IsAsciiId(OwnerId(route))
    ensures ConversationId(route, scope).Some? && |ConversationId(route, scope).value| <= MAX_ID_LENGTH
  {
    var p, a, o := KeyParts(route);
    CleanIsTrimmed(route.agentId, 300);
    CleanIsTrimmed(route.workItemId, 300);
    CleanIsTrimmed(route.sessionId, 300);
    CleanIsTrimmed(route.runtimeProvider, 32);
    EncodedLooks(Provider(route));
    EncodedLooks(AgentId(route));
    EncodedLooks(OwnerId(route));
    assert |Suffix(scope)| <= 20 && |Prefix()| == 11;
  }

  function Ideographs(n: nat): Units {
    if n == 0 then [] else [0x4E00] + Ideographs(n - 1)
  }

  lemma {:induction false} EncodeIdeographs(n: nat)
    ensures |Ideographs(n)| == n && IsTrimmed(Ideographs(n))
    ensures Encode(Ideographs(n)).Some? && |Encode(Ideographs(n)).value| == 9 * n
  {
    assert !IsSpace(0x4E00);
    if n > 0 {
      EncodeIdeographs(n - 1);
      var s := Ideographs(n);
      assert FirstPoint(s) == Some(0x4E00) && s[1..] == Ideographs(n - 1);
      EscapeAllLength(Utf8.Utf8Of(0x4E00));
      assert |EncodePoint(0x4E00)| == 9;
    }
  }

  lemma LongIdIsLost(id: Units)
    requires |id| == 300 && IsTrimmed(id) && Encode(id).Some? && |Encode(id).value| >= 2048
    ensures var route := Route(Yeaft(), id, id, []);
            && IsValid(route) && RouteKey(route).Some?
            && RouteKeyFromConversationId(ConversationId(route, Main).value, []) == [] != RouteKey(route).value
  {
    var route := Route(Yeaft(), id, id, []);
    CleanLeavesTrimmed(id, 300);
    YeaftIsClean();
    var p, a, o := KeyParts(route);
    ParseGenerated(route, Main, []);
    assert |ConversationId(route, Main).value| >= |a| + |o| + 11;
  }

  /** Other ids need not fit: with 300 ideographs in the agent and in the session id the route is valid, but its
      conversation id is not recognized. */
  lemma LongIdsAreLost()
    ensures var route := Route(Yeaft(), Ideographs(300), Ideographs(300), []);
            && IsValid(route) && RouteKey(route).Some?
            && RouteKeyFromConversationId(ConversationId(route, Main).value, []) == [] != RouteKey(route).value
  {
    EncodeIdeographs(300);
    LongIdIsLost(Ideographs(300));
  }

  lemma YeaftIsClean()
    ensures Clean(Yeaft(), 32) == Yeaft() != WorkCenter() && Encode(Yeaft()).Some?
  {
    var y := Yeaft();
    UnreservedIsNoSpace(y[0]);
    UnreservedIsNoSpace(y[4]);
    CleanLeavesTrimmed(y, 32);
    assert |Yeaft()| == 5 && |WorkCenter()| == 11;
    AsciiEncodes(y);
  }

  lemma {:induction false} AsciiEncodes(s: Units)
    requires IsAsciiId(s)
    ensures Encode(s).Some?
  {
    if s != [] {
      AsciiEncodes(s[1..]);
    }
  }

  /** Whatever is parsed, a key that is accepted is the key of a route with the expected agent, and it stands at
      the start of the id. */
  lemma ParsedIsCanonical(id: Units, expectedAgentId: Units)
    requires RouteKeyFromConversationId(id, expectedAgentId) != []
    ensures var key := RouteKeyFromConversationId(id, expectedAgentId);
            && (exists route :: IsValid(route) && RouteKey(route) == Some(key)
                                && (expectedAgentId == [] || route.agentId == expectedAgentId))
            && Prefix() + key <= Clean(id, MAX_ID_LENGTH)
  {
    var raw := Clean(id, MAX_ID_LENGTH);
    var text := raw[|Prefix()|..];
    var parts := Split(text, COLON);
    var route := RouteOf(Decode(parts[0]).value, Decode(parts[1]).value, Decode(parts[2]).value);
    assert IsValid(route) && RouteKey(route) == Some(RouteKeyFromConversationId(id, expectedAgentId));
    JoinSplit(text, COLON);
    JoinIsPrefix(parts, 3, COLON);
    assert raw == Prefix() + text;
  }

  lemma {:induction false} JoinIsPrefix(parts: seq<Units>, n: nat, separator: Unit)
    requires 0 < n <= |parts|
    ensures Join(parts[..n], separator) <= Join(parts, separator)
  {
    if n == |parts| {
      assert parts[..n] == parts;
    } else if n == 1 {
      assert parts[..1] == [parts[0]];
    } else {
      JoinIsPrefix(parts[1..], n - 1, separator);
      assert parts[..n][1..] == parts[1..][..n - 1];
      assert parts[..n][0] == parts[0];
    }
  }
}
