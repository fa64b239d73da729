/** Capturing a request body without taking it from the service behind (body.go). */
module Bodies {
  import opened Text
  import opened CacheRuns

  type Bytes = seq<bv8>

  /** What a Read reports besides its bytes. */
  datatype Status = More | EndOfFile | Fault

  type Ending = s: Status | s != More witness EndOfFile

  /** A stretch of a stream; when its bytes are used up the Read that took the last of
      them may report a fault, after which the stream goes on. */
  datatype Piece = Piece(bytes: Bytes, fails: bool)

  /** What is left of a stream: the pieces, then the end of file or a lasting fault. An
      eager stream reports its end together with the last bytes. */
  datatype Supply = Supply(pieces: seq<Piece>, ending: Ending, eager: bool)

  function Flatten(pieces: seq<Piece>): Bytes {
    if pieces == [] then [] else pieces[0].bytes + Flatten(pieces[1..])
  }

  /** The bytes a consumer gets before its first fault, and the pieces after it. */
  function BeforeFault(pieces: seq<Piece>): Bytes {
    if pieces == [] then []
    else if pieces[0].fails then pieces[0].bytes
    else pieces[0].bytes + BeforeFault(pieces[1..])
  }

  function AfterFault(pieces: seq<Piece>): seq<Piece> {
    if pieces == [] then []
    else if pieces[0].fails then pieces[1..]
    else AfterFault(pieces[1..])
  }

  ghost predicate Steady(pieces: seq<Piece>) {
    forall k :: 0 <= k < |pieces| ==> !pieces[k].fails
  }

  ghost predicate Faultless(s: Supply) {
    s.ending == EndOfFile && Steady(s.pieces)
  }

  /** Reading the first n bytes runs into a fault. */
  predicate FaultWithin(s: Supply, n: nat)
    decreases |s.pieces|
  {
    && n > 0
    && if s.pieces == [] then s.ending == Fault
       else
         && |s.pieces[0].bytes| <= n
         && (s.pieces[0].fails
             || (|s.pieces| == 1 && s.eager && s.ending == Fault)
             || FaultWithin(s.(pieces := s.pieces[1..]), n - |s.pieces[0].bytes|))
  }

  /** How many Reads can still make progress. */
  function Work(s: Supply): nat {
    |Flatten(s.pieces)| + |s.pieces|
  }

  /** What a Read into a buffer of this space may do to what a reader still has to give:
      it hands out the next bytes, passes at most one fault, and says whether more may
      follow. */
  ghost predicate Delivers(before: Supply, space: nat, data: Bytes, status: Status, after: Supply) {
    && |data| <= space && Flatten(before.pieces) == data + Flatten(after.pieces)
    && (status == More ==>
          && (space > 0 ==> Work(after) < Work(before))
          && BeforeFault(before.pieces) == data + BeforeFault(after.pieces)
          && AfterFault(before.pieces) == AfterFault(after.pieces)
          && (Faultless(before) <==> Faultless(after))
          && forall n: nat :: 0 < space <= n ==> (FaultWithin(before, n) <==> FaultWithin(after, n - |data|)))
    && (status != More ==>
          && BeforeFault(before.pieces) == data && AfterFault(before.pieces) == after.pieces
          && (status == EndOfFile ==> after.pieces == [] && Faultless(before))
          && (status == Fault ==> !Faultless(before))
          && forall n: nat :: 0 < space <= n ==> (FaultWithin(before, n) <==> status == Fault))
  }

  lemma PartOfPiece(s: Supply, space: nat)
    requires s.pieces != [] && space < |s.pieces[0].bytes|
    ensures var head := s.pieces[0];
            var rest := s.(pieces := [Piece(head.bytes[space..], head.fails)] + s.pieces[1..]);
            Delivers(s, space, head.bytes[..space], More, rest)
  {
    var head := s.pieces[0];
    var rest := s.(pieces := [Piece(head.bytes[space..], head.fails)] + s.pieces[1..]);
    assert rest.pieces[1..] == s.pieces[1..];
    assert head.bytes == head.bytes[..space] + head.bytes[space..];
    SteadyHead(s.pieces);
    SteadyHead(rest.pieces);
  }

  lemma WholePiece(s: Supply, space: nat)
    requires s.pieces != [] && |s.pieces[0].bytes| <= space
    ensures var head, rest := s.pieces[0], s.(pieces := s.pieces[1..]);
            var status := if head.fails then Fault else if |s.pieces| == 1 && s.eager then s.ending else More;
            Delivers(s, space, head.bytes, status, rest)
  {
    SteadyHead(s.pieces);
  }

  lemma SteadyHead(pieces: seq<Piece>)
    requires pieces != []
    ensures Steady(pieces) <==> !pieces[0].fails && Steady(pieces[1..])
  {
    assert pieces == [pieces[0]] + pieces[1..];
  }

  /** What io.MultiReader has to give: a prefix, then all the rest. */
  function Prefixed(prefix: Bytes, s: Supply): Supply {
    if prefix == [] then s
    else s.(pieces := [Piece(prefix, false)] + s.pieces, eager := s.eager && s.pieces != [])
  }

  lemma PrefixedParts(prefix: Bytes, s: Supply)
    ensures var t := Prefixed(prefix, s);
            && Flatten(t.pieces) == prefix + Flatten(s.pieces)
            && BeforeFault(t.pieces) == prefix + BeforeFault(s.pieces)
            && AfterFault(t.pieces) == AfterFault(s.pieces)
            && (Faultless(t) <==> Faultless(s))
  {
    var t := Prefixed(prefix, s);
    if prefix != [] {
      SteadyHead(t.pieces);
      assert t.pieces[1..] == s.pieces;
    }
  }

  lemma PartOfPrefix(prefix: Bytes, s: Supply, space: nat)
    requires prefix != []
    ensures var n := if space < |prefix| then space else |prefix|;
            Delivers(Prefixed(prefix, s), space, prefix[..n], More, Prefixed(prefix[n..], s))
  {
    var t := Prefixed(prefix, s);
    assert t.pieces[1..] == s.pieces;
    if space < |prefix| {
      PartOfPiece(t, space);
    } else {
      WholePiece(t, space);
      EagernessPasses(s, t.eager);
    }
  }

  /** With no pieces left it no longer matters whether the stream is eager. */
  lemma EagernessPasses(s: Supply, eager: bool)
    requires s.pieces == [] || eager == s.eager
    ensures forall n :: FaultWithin(s.(eager := eager), n) <==> FaultWithin(s, n)
  {}

  /** A request body: a stream a server hands over, or the replay of an earlier capture,
      which reads its prefix and then goes on with the reader it wraps. */
  class Reader {
    const inner: Reader?
    var prefix: Bytes
    var supply: Supply
    ghost const repr: set<Reader>
    ghost const height: nat

    ghost predicate Valid()
      decreases height
    {
      && this in repr
      && if inner == null then repr == {this}
         else inner.height < height && inner.repr == repr - {this} && inner.Valid()
    }

    /** All this reader has to give. */
    ghost function View(): Supply
      requires Valid()
      reads repr
      decreases height
    {
      if inner == null then supply else Prefixed(prefix, inner.View())
    }

    ghost function Remaining(): Bytes
      requires Valid()
      reads repr
    {
      Flatten(View().pieces)
    }

    constructor Stream(supply: Supply)
      ensures Valid() && View() == supply && fresh(repr)
    {
      inner := null;
      prefix := [];
      this.supply := supply;
      repr := {this};
      height := 0;
    }

    constructor Replay(prefix: Bytes, source: Reader)
      requires source.Valid()
      ensures Valid() && inner == source && this.prefix == prefix && repr == source.repr + {this}
      ensures View() == Prefixed(prefix, source.View()) && this !in source.repr
    {
      inner := source;
      this.prefix := prefix;
      supply := Supply([], EndOfFile, false);
      repr := source.repr + {this};
      height := source.height + 1;
    }

    method Read(space: nat) returns (data: Bytes, status: Status)
      requires Valid()
      modifies repr
      ensures Valid() && Delivers(old(View()), space, data, status, View())
      decreases height
    {
      if inner == null {
        data, status := ReadStream(space);
      } else if |prefix| > 0 {
        PartOfPrefix(prefix, inner.View(), space);
        var n := if space < |prefix| then space else |prefix|;
        data := prefix[..n];
        prefix := prefix[n..];
        return data, More;
      } else {
        data, status := inner.Read(space);
      }
    }

    method ReadStream(space: nat) returns (data: Bytes, status: Status)
      modifies this`supply
      ensures Delivers(old(supply), space, data, status, supply)
    {
      if |supply.pieces| == 0 {
        return [], supply.ending;
      }
      var head, tail := supply.pieces[0], supply.pieces[1..];
      if space < |head.bytes| {
        PartOfPiece(supply, space);
        supply := supply.(pieces := [Piece(head.bytes[space..], head.fails)] + tail);
        return head.bytes[..space], More;
      }
      WholePiece(supply, space);
      supply := supply.(pieces := tail);
      data := head.bytes;
      if head.fails {
        return data, Fault;
      }
      status := if |tail| == 0 && supply.eager then supply.ending else More;
    }

    /** A consumer behind the middleware, reading with buffers of any size until the end
        of file or a fault: it gets every byte before the first fault. */
    method Drain() returns (data: Bytes, status: Status)
      requires Valid()
      modifies repr
      ensures Valid() && status != More && data == old(BeforeFault(View().pieces))
      ensures status == EndOfFile <==> old(Faultless(View()))
      ensures Steady(old(View().pieces)) ==> data == old(Remaining())
    {
      ghost var whole := View();
      data, status := [], More;
      while status == More
        invariant Valid() && Drained(whole, data, status, View())
        decreases status == More, Work(View())
      {
        var space: nat :| space > 0;
        ghost var before := View();
        var more;
        more, status := Read(space);
        DrainStep(whole, data, before, space, more, status, View());
        data := data + more;
      }
      SteadyLosesNothing(whole.pieces);
    }
  }

  /** What a consumer has read so far. */
  ghost predicate Drained(whole: Supply, data: Bytes, status: Status, rest: Supply) {
    if status == More then
      BeforeFault(whole.pieces) == data + BeforeFault(rest.pieces) && (Faultless(rest) <==> Faultless(whole))
    else
      BeforeFault(whole.pieces) == data && (status == EndOfFile <==> Faultless(whole))
  }

  lemma DrainStep(whole: Supply, data: Bytes, before: Supply, space: nat, more: Bytes, status: Status, after: Supply)
    requires Drained(whole, data, More, before) && Delivers(before, space, more, status, after)
    ensures Drained(whole, data + more, status, after)
  {
    assert data + (more + BeforeFault(after.pieces)) == (data + more) + BeforeFault(after.pieces);
  }

  /** Without a fault between pieces, what precedes the first fault is everything, even
      if the stream ends in a lasting one. */
  lemma {:induction false} SteadyLosesNothing(pieces: seq<Piece>)
    ensures Steady(pieces) ==> BeforeFault(pieces) == Flatten(pieces) && AfterFault(pieces) == []
  {
    if pieces != [] {
      SteadyHead(pieces);
      SteadyLosesNothing(pieces[1..]);
    }
  }

  // ---------------------------------------------------------------------
  // Capturing
  // ---------------------------------------------------------------------

  datatype CaptureConfig = CaptureConfig(
    enabled: bool, maximumBytes: nat, bypassPathPrefix: seq<string>, contentTypes: seq<string>)

  class Request {
    /** No reader stands for a missing or empty body. */
    var body: Reader?
    const path: string
    const mediaType: Option<string>

    constructor (body: Reader?, path: string, mediaType: Option<string>)
      ensures this.body == body && this.path == path && this.mediaType == mediaType
    {
      this.body := body;
      this.path := path;
      this.mediaType := mediaType;
    }
  }

  function TrimSuffix(s: string, suffix: string): string {
    if |suffix| <= |s| && s[|s| - |suffix|..] == suffix then s[..|s| - |suffix|] else s
  }

  predicate Space(c: char) {
    c == ' ' || '\t' <= c <= '\r'
  }

  function TrimSpace(s: string): string {
    if s == "" then ""
    else if Space(s[0]) then TrimSpace(s[1..])
    else if Space(s[|s| - 1]) then TrimSpace(s[..|s| - 1])
    else s
  }

  predicate BypassBodyPath(path: string, prefixes: seq<string>) {
    exists p :: p in prefixes && (p == "/" || path == p || TrimSuffix(p, "/") + "/" <= path)
  }

  /** The media type is missing when the header does not parse. */
  predicate BodyContentTypeAllowed(mediaType: Option<string>, allowed: seq<string>) {
    && mediaType.Some?
    && exists a :: a in allowed && MatchesType(Lower(mediaType.value), Lower(TrimSpace(a)))
  }

  predicate MatchesType(mediaType: string, pattern: string) {
    || pattern == mediaType
    || (TrimSuffix(pattern, "/*") != pattern && TrimSuffix(pattern, "*") <= mediaType)
  }

  predicate Eligible(config: CaptureConfig, path: string, mediaType: Option<string>, protocol: string) {
    && config.enabled && protocol == "http"
    && !BypassBodyPath(path, config.bypassPathPrefix)
    && BodyContentTypeAllowed(mediaType, config.contentTypes)
  }

  ghost predicate White(s: string) {
    forall i :: 0 <= i < |s| ==> s[i] as int in {9, 10, 11, 12, 13, 32}
  }

  /** White space on both sides of something that neither begins nor ends with any. */
  ghost predicate Padded(s: string, left: string, inner: string, right: string) {
    && s == left + inner + right && White(left) && White(right)
    && (inner != "" ==> inner[0] as int !in {9, 10, 11, 12, 13, 32}
                        && inner[|inner| - 1] as int !in {9, 10, 11, 12, 13, 32})
  }

  /** Trimming takes off all the white space at both ends, and nothing else. */
  lemma {:induction false} TrimSpaceMeaning(s: string, left: string, inner: string, right: string)
    requires Padded(s, left, inner, right)
    ensures TrimSpace(s) == inner
    decreases |s|
  {
    if left != "" {
      assert s[0] == left[0];
      assert s[1..] == left[1..] + inner + right;
      TrimSpaceMeaning(s[1..], left[1..], inner, right);
    } else if right != "" {
      assert s == inner + right;
      TrimRight(inner, right);
    } else {
      assert s == inner;
    }
  }

  lemma {:induction false} TrimRight(inner: string, right: string)
    requires Padded(inner + right, "", inner, right)
    ensures TrimSpace(inner + right) == inner
    decreases |right|
  {
    var s := inner + right;
    if right == "" {
      assert s == inner;
    } else if inner == "" {
      assert s == right && s[1..] == "" + right[1..];
      TrimRight("", right[1..]);
    } else {
      assert s[0] == inner[0] && s[|s| - 1] == right[|right| - 1];
      assert s[..|s| - 1] == inner + right[..|right| - 1];
      TrimRight(inner, right[..|right| - 1]);
    }
  }

  lemma {:induction false} TrimSpacePads(s: string) returns (left: string, right: string)
    ensures Padded(s, left, TrimSpace(s), right)
  {
    if s == "" {
      left, right := "", "";
    } else if Space(s[0]) {
      left, right := TrimSpacePads(s[1..]);
      PadLeft(s, left, TrimSpace(s), right);
      left := [s[0]] + left;
    } else if Space(s[|s| - 1]) {
      left, right := TrimSpacePads(s[..|s| - 1]);
      PadRight(s, left, TrimSpace(s), right);
      right := right + [s[|s| - 1]];
    } else {
      left, right := "", "";
    }
  }

  lemma PadLeft(s: string, left: string, inner: string, right: string)
    requires s != "" && Space(s[0]) && Padded(s[1..], left, inner, right)
    ensures Padded(s, [s[0]] + left, inner, right)
  {
    assert s == [s[0]] + s[1..];
    assert [s[0]] + (left + inner + right) == ([s[0]] + left) + inner + right;
  }

  lemma PadRight(s: string, left: string, inner: string, right: string)
    requires s != "" && Space(s[|s| - 1]) && Padded(s[..|s| - 1], left, inner, right)
    ensures Padded(s, left, inner, right + [s[|s| - 1]])
  {
    var last := s[|s| - 1];
    assert s == s[..|s| - 1] + [last];
    assert (left + inner + right) + [last] == left + inner + (right + [last]);
  }

  /** A path is bypassed exactly when it is a configured prefix or lies under one, with or
      without its final slash; "/" is a prefix of everything. */
  lemma BypassMeaning(path: string, prefixes: seq<string>)
    ensures BypassBodyPath(path, prefixes) <==>
            exists p :: p in prefixes
              && (p == "/" || path == p || p + "/" <= path || (p != "" && p[|p| - 1] == '/' && p <= path))
  {
    forall p ensures TrimSuffix(p, "/") + "/" <= path <==>
                     p + "/" <= path || (p != "" && p[|p| - 1] == '/' && p <= path)
    {
      if p != "" && p[|p| - 1] == '/' {
        assert p[|p| - 1..] == "/";
        assert TrimSuffix(p, "/") + "/" == p;
        assert p <= p + "/";
      } else if p != "" {
        assert p[|p| - 1..] != "/";
      }
    }
  }

  /** A type is allowed exactly when some pattern, apart from white space around it and
      from case, is that type or its major type followed by a slash and a star. */
  lemma TypesMeaning(mediaType: string, allowed: seq<string>)
    ensures BodyContentTypeAllowed(Some(mediaType), allowed) <==>
            exists a, left, inner, right :: a in allowed && Padded(a, left, inner, right)
              && (Lower(inner) == Lower(mediaType)
                  || exists major :: Lower(inner) == major + "/*" && major + "/" <= Lower(mediaType))
  {
    var m := Lower(mediaType);
    forall a, left, inner, right | a in allowed && Padded(a, left, inner, right)
      ensures TrimSpace(a) == inner
    {
      TrimSpaceMeaning(a, left, inner, right);
    }
    forall t ensures MatchesType(m, t) <==> t == m || exists major :: t == major + "/*" && major + "/" <= m {
      PatternMeaning(m, t);
    }
    if BodyContentTypeAllowed(Some(mediaType), allowed) {
      var a :| a in allowed && MatchesType(m, Lower(TrimSpace(a)));
      var left, right := TrimSpacePads(a);
      assert Padded(a, left, TrimSpace(a), right);
    }
  }

  lemma PatternMeaning(mediaType: string, pattern: string)
    ensures MatchesType(mediaType, pattern) <==>
            pattern == mediaType || exists major :: pattern == major + "/*" && major + "/" <= mediaType
  {
    if TrimSuffix(pattern, "/*") != pattern {
      var major := pattern[..|pattern| - 2];
      assert pattern == major + "/*";
      assert TrimSuffix(pattern, "*") == major + "/" by {
        assert pattern[|pattern| - 1..] == "*";
      }
    }
    if major :| pattern == major + "/*" && major + "/" <= mediaType {
      assert pattern[|pattern| - 2..] == "/*" && pattern[|pattern| - 1..] == "*";
      assert TrimSuffix(pattern, "*") == major + "/";
    }
  }

  /** Which requests have their body read, from the configuration, the path, the media type
      and the protocol alone. */
  lemma WhatIsCaptured(config: CaptureConfig, path: string, mediaType: Option<string>, protocol: string)
    ensures Eligible(config, path, mediaType, protocol) <==>
            && config.enabled && protocol == "http" && mediaType.Some?
            && (forall p :: p in config.bypassPathPrefix ==>
                  p != "/" && path != p && !(p + "/" <= path) && !(p != "" && p[|p| - 1] == '/' && p <= path))
            && exists a, left, inner, right :: a in config.contentTypes && Padded(a, left, inner, right)
                 && (Lower(inner) == Lower(mediaType.value)
                     || exists major :: Lower(inner) == major + "/*" && major + "/" <= Lower(mediaType.value))
  {
    BypassMeaning(path, config.bypassPathPrefix);
    if mediaType.Some? {
      TypesMeaning(mediaType.value, config.contentTypes);
    }
  }

  datatype Captured = Skipped | Failed | Oversized | Whole(bytes: Bytes)

  /** What capturing comes to, from the stream alone. */
  function Outcome(supply: Supply, limit: nat): Captured {
    if FaultWithin(supply, limit + 1) then Failed
    else if |Flatten(supply.pieces)| > limit then Oversized
    else Whole(Flatten(supply.pieces))
  }

  /** io.ReadAll over io.LimitReader: buffers of any size, never more than the limit. It
      fails exactly when a fault lies within the limit, and has then passed it. */
  method ReadLimited(body: Reader, limit: nat) returns (prefix: Bytes, failed: bool)
    requires body.Valid()
    modifies body.repr
    ensures body.Valid() && |prefix| <= limit && prefix + body.Remaining() == old(body.Remaining())
    ensures failed <==> FaultWithin(old(body.View()), limit)
    ensures !failed ==> |prefix| == limit || body.Remaining() == []
    ensures !failed ==> prefix + BeforeFault(body.View().pieces) == old(BeforeFault(body.View().pieces))
    ensures failed ==> prefix == old(BeforeFault(body.View().pieces))
    ensures failed ==> body.View().pieces == old(AfterFault(body.View().pieces))
  {
    ghost var whole := body.View();
    prefix := [];
    var left: nat, status := limit, More;
    while status == More
      invariant body.Valid() && Captures(whole, limit, prefix, left, status, body.View())
      decreases status == More, Work(body.View())
    {
      if left == 0 {
        status := EndOfFile;
      } else {
        var space: nat :| space > 0;
        var room := if space > left then left else space;
        ghost var before := body.View();
        var data;
        data, status := body.Read(room);
        CaptureStep(whole, limit, prefix, left, before, room, data, status, body.View());
        prefix := prefix + data;
        left := left - |data|;
      }
    }
    failed := status == Fault;
  }

  /** What the loop of ReadLimited has done so far. */
  ghost predicate Captures(whole: Supply, limit: nat, prefix: Bytes, left: nat, status: Status, rest: Supply) {
    && |prefix| + left == limit && Flatten(whole.pieces) == prefix + Flatten(rest.pieces)
    && (status == More ==>
          && (FaultWithin(whole, limit) <==> FaultWithin(rest, left))
          && BeforeFault(whole.pieces) == prefix + BeforeFault(rest.pieces)
          && AfterFault(whole.pieces) == AfterFault(rest.pieces))
    && (status == EndOfFile ==>
          && !FaultWithin(whole, limit) && (left == 0 || rest.pieces == [])
          && BeforeFault(whole.pieces) == prefix + BeforeFault(rest.pieces))
    && (status == Fault ==>
          FaultWithin(whole, limit) && BeforeFault(whole.pieces) == prefix && AfterFault(whole.pieces) == rest.pieces)
  }

  lemma CaptureStep(whole: Supply, limit: nat, prefix: Bytes, left: nat, before: Supply, room: nat,
                    data: Bytes, status: Status, after: Supply)
    requires Captures(whole, limit, prefix, left, More, before) && 0 < room <= left
    requires Delivers(before, room, data, status, after)
    ensures Captures(whole, limit, prefix + data, left - |data|, status, after)
  {
    assert prefix + (data + Flatten(after.pieces)) == (prefix + data) + Flatten(after.pieces);
    assert prefix + (data + BeforeFault(after.pieces)) == (prefix + data) + BeforeFault(after.pieces);
  }

  /** The bytes a consumer behind the middleware gets: those before the first fault, and
      if the capture has passed that fault, those up to the next one. */
  function Downstream(supply: Supply, limit: nat): Bytes {
    BeforeFault(supply.pieces) + if FaultWithin(supply, limit + 1) then BeforeFault(AfterFault(supply.pieces)) else []
  }

  method CaptureRequestBody(request: Request, config: CaptureConfig, protocol: string) returns (r: Captured)
    requires request.body != null ==> request.body.Valid()
    modifies request, if request.body != null then request.body.repr else {}
    ensures r == Skipped <==>
            old(request.body) == null || !Eligible(config, request.path, request.mediaType, protocol)
    ensures old(request.body) == null || !Eligible(config, request.path, request.mediaType, protocol)
            ==> unchanged(request)
                && (old(request.body) != null ==> unchanged(old(request.body.repr)))
    ensures old(request.body) != null && Eligible(config, request.path, request.mediaType, protocol)
            ==> && r == Outcome(old(request.body.View()), config.maximumBytes)
                && request.body != null && request.body.Valid() && fresh(request.body)
                && request.body.inner == old(request.body)
                && request.body.repr == old(request.body.repr) + {request.body}
                && request.body.Remaining() == old(request.body.Remaining())
                && BeforeFault(request.body.View().pieces)
                   == Downstream(old(request.body.View()), config.maximumBytes)
                && |request.body.prefix| <= config.maximumBytes + 1
  {
    if request.body == null || !Eligible(config, request.path, request.mediaType, protocol) {
      return Skipped;
    }
    var reader;
    r, reader := CaptureStream(request.body, config.maximumBytes);
    request.body := reader;
  }

  /** captureRequestBody on an eligible request: the outcome, and the reader that takes
      the place of the body. */
  method CaptureStream(body: Reader, limit: nat) returns (r: Captured, reader: Reader)
    requires body.Valid()
    modifies body.repr
    ensures r == Outcome(old(body.View()), limit)
    ensures fresh(reader) && reader.Valid() && reader.inner == body && reader.repr == body.repr + {reader}
    ensures reader.Remaining() == old(body.Remaining()) && |reader.prefix| <= limit + 1
    ensures BeforeFault(reader.View().pieces) == Downstream(old(body.View()), limit)
  {
    ghost var whole := body.View();
    var prefix, failed := ReadLimited(body, limit + 1);
    reader := new Reader.Replay(prefix, body);
    PrefixedParts(prefix, body.View());
    ReplayIsDownstream(whole, limit, prefix, failed, body.View());
    if failed {
      return Failed, reader;
    }
    if |prefix| > limit {
      return Oversized, reader;
    }
    return Whole(prefix), reader;
  }

  /** The prefix read, followed by what is left, is what a consumer gets. */
  lemma ReplayIsDownstream(whole: Supply, limit: nat, prefix: Bytes, failed: bool, rest: Supply)
    requires failed <==> FaultWithin(whole, limit + 1)
    requires failed ==> prefix == BeforeFault(whole.pieces) && rest.pieces == AfterFault(whole.pieces)
    requires !failed ==> prefix + BeforeFault(rest.pieces) == BeforeFault(whole.pieces)
    ensures prefix + BeforeFault(rest.pieces) == Downstream(whole, limit)
  {}

  /** The round trip: whatever the capture came to, the consumer behind the middleware
      reads what it would have read without it. Unless the body faults in the middle and
      goes on, that is every byte it has, even if it ends in a lasting fault; a fault in
      the middle that the capture has passed is not seen again, and the consumer gets the
      bytes on both sides of it. */
  method CaptureThenForward(request: Request, config: CaptureConfig, protocol: string)
    returns (r: Captured, downstream: Bytes, status: Status)
    requires request.body != null && request.body.Valid()
    requires Eligible(config, request.path, request.mediaType, protocol)
    modifies request, request.body.repr
    ensures r == Outcome(old(request.body.View()), config.maximumBytes)
    ensures downstream == Downstream(old(request.body.View()), config.maximumBytes)
    ensures Steady(old(request.body.View().pieces)) ==> downstream == old(request.body.Remaining())
    ensures status == EndOfFile ==> downstream == old(request.body.Remaining())
  {
    ghost var whole := request.body.View();
    r := CaptureRequestBody(request, config, protocol);
    downstream, status := request.body.Drain();
    SteadyLosesNothing(whole.pieces);
  }

  // ---------------------------------------------------------------------
  // What the outcome depends on
  // ---------------------------------------------------------------------

  lemma {:induction false} FaultlessNeverFails(s: Supply, n: nat)
    requires Faultless(s)
    ensures !FaultWithin(s, n)
    decreases |s.pieces|
  {
    if s.pieces != [] && |s.pieces[0].bytes| <= n {
      SteadyHead(s.pieces);
      FaultlessNeverFails(s.(pieces := s.pieces[1..]), n - |s.pieces[0].bytes|);
    }
  }

  /** Without a fault the chunking is invisible: the body is captured whole exactly when
      it fits the limit, and otherwise flagged and not returned. */
  lemma ChunkingIsInvisible(s: Supply, t: Supply, limit: nat)
    requires Faultless(s) && Faultless(t) && Flatten(s.pieces) == Flatten(t.pieces)
    ensures Outcome(s, limit) == Outcome(t, limit)
    ensures Outcome(s, limit) == Whole(Flatten(s.pieces)) <==> |Flatten(s.pieces)| <= limit
    ensures Outcome(s, limit) == Oversized <==> |Flatten(s.pieces)| > limit
  {
    FaultlessNeverFails(s, limit + 1);
    FaultlessNeverFails(t, limit + 1);
  }

  /** A body that breaks for good before the limit is reached is never taken for whole. */
  lemma {:induction false} BrokenBodiesFail(s: Supply, n: nat)
    requires s.ending == Fault && |Flatten(s.pieces)| < n
    ensures FaultWithin(s, n)
    decreases |s.pieces|
  {
    if s.pieces != [] {
      BrokenBodiesFail(s.(pieces := s.pieces[1..]), n - |s.pieces[0].bytes|);
    }
  }
}
