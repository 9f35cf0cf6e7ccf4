/** Query strings (nmc_client/src/Core/CloudAPIClient.cpp), read by RFC 3986 sections 2.1, 2.3 and 3.4. */
module Query {
  import opened Sequences
  import opened Text

  /** A byte of a C++ string. */
  type Octet = c: char | c as int < 256 witness 'a'

  predicate Unreserved(c: char) {
    'A' <= c <= 'Z' || 'a' <= c <= 'z' || '0' <= c <= '9' || c == '-' || c == '_' || c == '.' || c == '~'
  }

  function HexDigit(n: nat): char
    requires n < 16
  {
    if n < 10 then ('0' as int + n) as char else ('A' as int + n - 10) as char
  }

  function HexValue(c: char): Option<nat> {
    if '0' <= c <= '9' then Some(c as int - '0' as int)
    else if 'A' <= c <= 'F' then Some(c as int - 'A' as int + 10)
    else if 'a' <= c <= 'f' then Some(c as int - 'a' as int + 10)
    else None
  }

  function EncodeOctet(c: Octet): string {
    if Unreserved(c) then [c] else ['%', HexDigit(c as int / 16), HexDigit(c as int % 16)]
  }

  function Encoded(value: seq<Octet>): string {
    if value == [] then "" else Encoded(value[..|value| - 1]) + EncodeOctet(value[|value| - 1])
  }

  method EncodeQueryValue(value: seq<Octet>) returns (encoded: string)
    ensures encoded == Encoded(value)
  {
    encoded := "";
    for i := 0 to |value|
      invariant encoded == Encoded(value[..i])
    {
      assert value[..i + 1][..i] == value[..i];
      var c := value[i];
      if Unreserved(c) {
        encoded := encoded + [c];
      } else {
        encoded := encoded + ['%', HexDigit(c as int / 16), HexDigit(c as int % 16)];
      }
    }
    assert value[..|value|] == value;
  }

  /** Percent-decoding; None for a broken triplet. */
  function Decoded(s: string): Option<string> {
    if s == "" then Some("")
    else if s[0] != '%' then Before([s[0]], Decoded(s[1..]))
    else if |s| < 3 || HexValue(s[1]).None? || HexValue(s[2]).None? then None
    else Before([(HexValue(s[1]).value * 16 + HexValue(s[2]).value) as char], Decoded(s[3..]))
  }

  function Before(front: string, rest: Option<string>): Option<string> {
    if rest.None? then None else Some(front + rest.value)
  }

  lemma OctetReadsBack(c: Octet, rest: string)
    ensures Decoded(EncodeOctet(c) + rest) == Before([c], Decoded(rest))
  {
  }

  lemma {:induction false} EncodingReadsBackBefore(value: seq<Octet>, rest: string)
    ensures Decoded(Encoded(value) + rest) == Before(value, Decoded(rest))
    decreases |value|
  {
    if value == [] {
      assert Encoded(value) + rest == rest;
      if Decoded(rest).Some? { assert [] + Decoded(rest).value == Decoded(rest).value; }
    } else {
      var front, last := value[..|value| - 1], value[|value| - 1];
      assert Encoded(value) + rest == Encoded(front) + (EncodeOctet(last) + rest);
      EncodingReadsBackBefore(front, EncodeOctet(last) + rest);
      OctetReadsBack(last, rest);
      if Decoded(rest).Some? {
        assert front + ([last] + Decoded(rest).value) == value + Decoded(rest).value by { assert front + [last] == value; }
      }
    }
  }

  /** Decoding an encoded value returns it, octet for octet. */
  lemma EncodingReadsBack(value: seq<Octet>)
    ensures Decoded(Encoded(value)) == Some(value)
  {
    EncodingReadsBackBefore(value, "");
    assert Encoded(value) + "" == Encoded(value) && value + "" == value;
  }

  /** The characters RFC 3986 leaves unreserved. */
  predicate PlainOctet(c: char) {
    ('A' <= c && c <= 'Z') || ('a' <= c && c <= 'z') || ('0' <= c && c <= '9') || c in "-._~"
  }

  /** Any other octet becomes a percent sign with two digits, capital where they are letters. */
  lemma OctetIsKeptIff(c: Octet)
    ensures if PlainOctet(c) then EncodeOctet(c) == [c]
            else |EncodeOctet(c)| == 3 && EncodeOctet(c)[0] == '%'
                 && forall j | 1 <= j < 3 :: '0' <= EncodeOctet(c)[j] <= '9' || 'A' <= EncodeOctet(c)[j] <= 'F'
  {
  }

  lemma {:induction false} EncodingGrows(value: seq<Octet>)
    ensures |Encoded(value)| >= |value|
    ensures (exists i :: 0 <= i < |value| && !PlainOctet(value[i])) ==> |Encoded(value)| > |value|
  {
    hide EncodeOctet, PlainOctet;
    if value != [] {
      EncodingGrows(value[..|value| - 1]);
      OctetIsKeptIff(value[|value| - 1]);
    }
  }

  lemma {:induction false} PlainIsKept(value: seq<Octet>)
    requires forall i | 0 <= i < |value| :: PlainOctet(value[i])
    ensures Encoded(value) == value
  {
    hide EncodeOctet, PlainOctet;
    if value != [] {
      PlainIsKept(value[..|value| - 1]);
      OctetIsKeptIff(value[|value| - 1]);
    }
  }

  /** A value is sent as it is if and only if it holds unreserved characters alone. */
  lemma EncodingKeepsIff(value: seq<Octet>)
    ensures Encoded(value) == value <==> forall i | 0 <= i < |value| :: PlainOctet(value[i])
  {
    hide Encoded, PlainOctet;
    EncodingGrows(value);
    if forall i | 0 <= i < |value| :: PlainOctet(value[i]) { PlainIsKept(value); }
  }

  /** An encoded value cannot change the shape of the request path. */
  lemma {:induction false} EncodingIsInert(value: seq<Octet>)
    ensures forall c | c in Encoded(value) :: Unreserved(c) || c == '%'
  {
    if value != [] { EncodingIsInert(value[..|value| - 1]); }
  }

  // ---------------------------------------------------------------- building a path

  function AppendQueryString(path: string, key: string, value: string): string {
    if value == "" then path
    else path + (if '?' in path then "&" else "?") + key + "=" + value
  }

  datatype Param = Param(key: string, value: seq<Octet>)

  function BuildPath(base: string, params: seq<Param>): string {
    if params == [] then base
    else
      var p := params[|params| - 1];
      AppendQueryString(BuildPath(base, params[..|params| - 1]), p.key, Encoded(p.value))
  }

  function NonEmpty(params: seq<Param>): seq<Param> {
    if params == [] then []
    else
      var p := params[|params| - 1];
      NonEmpty(params[..|params| - 1]) + if p.value == [] then [] else [p]
  }

  // ---------------------------------------------------------------- reading it

  datatype Pair = Pair(key: string, value: string)

  function ReadPair(piece: string): Option<Pair> {
    var e := Find(piece, '=');
    if e == |piece| then None
    else
      var v := Decoded(piece[e + 1..]);
      if v.None? then None else Some(Pair(piece[..e], v.value))
  }

  function ReadPairs(pieces: seq<string>): Option<seq<Pair>> {
    if pieces == [] then Some([])
    else
      var front := ReadPairs(pieces[..|pieces| - 1]);
      var p := ReadPair(pieces[|pieces| - 1]);
      if front.None? || p.None? then None else Some(front.value + [p.value])
  }

  /** The query runs from the first question mark to the number sign or the end. */
  function ReadQuery(path: string): Option<seq<Pair>> {
    var before := path[..Find(path, '#')];
    var q := Find(before, '?');
    if q == |before| then Some([]) else ReadPairs(Getline(before[q + 1..], '&'))
  }

  predicate KeyOk(key: string) {
    '&' !in key && '=' !in key && '?' !in key && '#' !in key
  }

  predicate KeysOk(params: seq<Param>) {
    forall i | 0 <= i < |params| :: KeyOk(params[i].key)
  }

  function Piece(p: Param): string {
    p.key + "=" + Encoded(p.value)
  }

  function Pieces(params: seq<Param>): (r: seq<string>)
    ensures |r| == |params|
    ensures forall i | 0 <= i < |params| :: r[i] == Piece(params[i])
  {
    if params == [] then [] else Pieces(params[..|params| - 1]) + [Piece(params[|params| - 1])]
  }

  function Pairs(params: seq<Param>): seq<Pair> {
    if params == [] then []
    else Pairs(params[..|params| - 1]) + [Pair(params[|params| - 1].key, params[|params| - 1].value)]
  }

  lemma PieceIsInert(p: Param)
    requires KeyOk(p.key)
    ensures Piece(p) != "" && '&' !in Piece(p) && '?' !in Piece(p) && '#' !in Piece(p)
  {
    hide Encoded;
    EncodingIsInert(p.value);
    assert Piece(p)[|p.key|] == '=';
  }

  lemma PieceReadsBack(p: Param)
    requires KeyOk(p.key)
    ensures ReadPair(Piece(p)) == Some(Pair(p.key, p.value))
  {
    hide Encoded, Decoded;
    EncodingReadsBack(p.value);
    assert Piece(p) == p.key + ("=" + Encoded(p.value));
    FindIsFirst(p.key, "=" + Encoded(p.value), '=');
    assert Piece(p)[..|p.key|] == p.key && Piece(p)[|p.key| + 1..] == Encoded(p.value);
  }

  lemma {:induction false} EncodedIsEmptyIff(value: seq<Octet>)
    ensures Encoded(value) == "" <==> value == []
  {
  }

  /** The base, then a question mark and the pieces joined by ampersands, if there are any. */
  function PathOf(base: string, pieces: seq<string>): string {
    if pieces == [] then base else base + "?" + JoinWith(pieces, '&')
  }

  lemma {:induction false} PathShape(base: string, params: seq<Param>)
    requires '?' !in base && '#' !in base && KeysOk(params)
    ensures KeysOk(NonEmpty(params))
    ensures BuildPath(base, params) == PathOf(base, Pieces(NonEmpty(params)))
    ensures '?' in BuildPath(base, params) <==> NonEmpty(params) != []
    ensures '#' !in BuildPath(base, params)
  {
    hide PathOf, Piece, Pieces, AppendQueryString;
    if params == [] {
      EmptyPath(base);
    } else {
      var front, p := params[..|params| - 1], params[|params| - 1];
      PathShape(base, front);
      EncodedIsEmptyIff(p.value);
      if p.value != [] {
        var kept := NonEmpty(front);
        PiecesOneMore(kept, p);
        OneMorePiece(base, Pieces(kept), p, BuildPath(base, front));
      } else {
        EmptyValueIsSkipped(base, params);
        assert NonEmpty(params) == NonEmpty(front);
      }
    }
  }

  lemma PiecesOneMore(params: seq<Param>, p: Param)
    ensures Pieces(params + [p]) == Pieces(params) + [Piece(p)]
  {
  }

  lemma EmptyValueIsSkipped(base: string, params: seq<Param>)
    requires params != [] && params[|params| - 1].value == []
    ensures BuildPath(base, params) == BuildPath(base, params[..|params| - 1])
  {
  }

  lemma EmptyPath(base: string)
    ensures PathOf(base, Pieces([])) == base
  {
  }

  lemma OneMorePiece(base: string, pieces: seq<string>, p: Param, path: string)
    requires path == PathOf(base, pieces) && p.value != [] && KeyOk(p.key)
    requires ('?' in path <==> pieces != []) && '#' !in path
    ensures var longer := AppendQueryString(path, p.key, Encoded(p.value));
      longer == PathOf(base, pieces + [Piece(p)]) && '?' in longer && '#' !in longer
  {
    hide Encoded;
    var more := pieces + [Piece(p)];
    EncodedIsEmptyIff(p.value);
    PieceIsInert(p);
    assert more[..|pieces|] == pieces;
    var mark := if pieces == [] then "?" else "&";
    assert path + mark + p.key + "=" + Encoded(p.value) == path + mark + Piece(p);
    assert (path + mark + Piece(p))[|path|] == mark[0];
    if pieces != [] {
      assert base + "?" + (JoinWith(pieces, '&') + "&" + Piece(p)) == base + "?" + JoinWith(pieces, '&') + "&" + Piece(p);
    }
  }

  lemma {:induction false} PiecesReadBack(params: seq<Param>)
    requires KeysOk(params)
    ensures Items(Pieces(params), '&') && ReadPairs(Pieces(params)) == Some(Pairs(params))
  {
    if params != [] {
      var front, p := params[..|params| - 1], params[|params| - 1];
      PiecesReadBack(front);
      PieceIsInert(p);
      PieceReadsBack(p);
      assert Pieces(params)[..|front|] == Pieces(front);
    }
  }

  /** Splitting a path built from a plain base returns the parameters with a non-empty value, in order
      and decoded. */
  lemma QueryReadsBack(base: string, params: seq<Param>)
    requires '?' !in base && '#' !in base && KeysOk(params)
    ensures ReadQuery(BuildPath(base, params)) == Some(Pairs(NonEmpty(params)))
  {
    hide Encoded, ReadPairs, Getline, JoinWith, BuildPath, Pieces;
    var path, kept := BuildPath(base, params), NonEmpty(params);
    var joined := JoinWith(Pieces(kept), '&');
    PathShape(base, params);
    PiecesReadBack(kept);
    WholePath(path);
    if kept != [] {
      GetlineOfJoin(Pieces(kept), '&');
      assert path == base + ("?" + joined);
      FindIsFirst(base, "?" + joined, '?');
      assert path[|base| + 1..] == joined;
    } else {
      assert base + "" == base;
      FindIsFirst(base, "", '?');
    }
  }

  lemma WholePath(path: string)
    requires '#' !in path
    ensures path[..Find(path, '#')] == path
  {
  }
}
