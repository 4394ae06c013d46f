/**
 The secret scope annotation: `pod`, `node`, `service=<name>` and `listener-volume=<name>`
 pieces joined by commas.
 */
module Scope {
  import opened Sequences
  import opened Text

  const POD := "pod"
  const NODE := "node"
  const SERVICE := "service"
  const LISTENER_VOLUME := "listener-volume"

  datatype SecretScope = SecretScope(pod: string, node: string, services: seq<string>, listenerVolumes: seq<string>)

  const EMPTY := SecretScope("", "", [], [])

  // ----- Encoding

  function Tagged(tag: string, names: seq<string>): (pieces: seq<string>)
    ensures |pieces| == |names|
    ensures forall i :: 0 <= i < |names| ==> pieces[i] == tag + "=" + names[i]
  {
    if names == [] then [] else [tag + "=" + names[0]] + Tagged(tag, names[1..])
  }

  function Pieces(x: SecretScope): (pieces: seq<string>) {
    (if x.pod == POD then [POD] else []) +
    (if x.node != "" then [x.node] else []) +
    Tagged(SERVICE, x.services) +
    Tagged(LISTENER_VOLUME, x.listenerVolumes)
  }

  function Encode(x: SecretScope): (s: string) { Join(Pieces(x), ',') }

  method AppendTagged(scopes: seq<string>, tag: string, names: seq<string>) returns (r: seq<string>)
    ensures r == scopes + Tagged(tag, names)
  {
    hide Tagged;
    r := scopes;
    for i := 0 to |names|
      invariant r == scopes + Tagged(tag, names)[..i]
    {
      r := r + [tag + "=" + names[i]];
    }
  }

  method EncodeScope(x: SecretScope) returns (s: string)
    ensures s == Encode(x)
  {
    var scopes: seq<string> := [];
    if x.pod != "" && x.pod == POD {
      scopes := scopes + [x.pod];
    }
    if x.node != "" {
      scopes := scopes + [x.node];
    }
    scopes := AppendTagged(scopes, SERVICE, x.services);
    scopes := AppendTagged(scopes, LISTENER_VOLUME, x.listenerVolumes);
    hide Tagged, Join;
    assert scopes == Pieces(x);
    s := Join(scopes, ',');
  }

  // ----- Decoding

  /** One piece; None where the code indexes past the end of a split without "=". */
  function DecodePiece(x: SecretScope, piece: string): (r: Option<SecretScope>) {
    var kv := Split(piece, '=');
    if kv[0] == POD then Some(x.(pod := POD))
    else if kv[0] == NODE then Some(x.(node := NODE))
    else if kv[0] == SERVICE then
      if |kv| < 2 then None else Some(x.(services := x.services + [kv[1]]))
    else if kv[0] == LISTENER_VOLUME then
      if |kv| < 2 then None else Some(x.(listenerVolumes := x.listenerVolumes + [kv[1]]))
    else Some(x)
  }

  function DecodePieces(x: SecretScope, pieces: seq<string>): (r: Option<SecretScope>)
    decreases |pieces|
  {
    if pieces == [] then Some(x)
    else
      match DecodePiece(x, pieces[0])
      case None => None
      case Some(y) => DecodePieces(y, pieces[1..])
  }

  function Decode(s: string): (r: Option<SecretScope>) { DecodePieces(EMPTY, Split(s, ',')) }

  method DecodeScope(s: string) returns (r: Option<SecretScope>)
    ensures r == Decode(s)
  {
    var pieces := Split(s, ',');
    var x := EMPTY;
    for i := 0 to |pieces|
      invariant DecodePieces(EMPTY, pieces) == DecodePieces(x, pieces[i..])
    {
      var y := DecodePiece(x, pieces[i]);
      assert pieces[i..][1..] == pieces[i + 1..];
      if y.None? {
        return None;
      }
      x := y.value;
    }
    r := Some(x);
  }

  /** The pieces in their text form and order: the flags, the services, the listener volumes. */
  lemma PiecesInWords(x: SecretScope)
    ensures var flags := (if x.pod == "pod" then ["pod"] else []) + (if x.node != "" then [x.node] else []);
            var ps, n := Pieces(x), |flags|;
            && |ps| == n + |x.services| + |x.listenerVolumes| && ps[..n] == flags
            && (forall i :: 0 <= i < |x.services| ==> ps[n + i] == "service=" + x.services[i])
            && (forall i :: 0 <= i < |x.listenerVolumes| ==>
                  ps[n + |x.services| + i] == "listener-volume=" + x.listenerVolumes[i])
  {
    hide Tagged;
    assert SERVICE + "=" == "service=" && LISTENER_VOLUME + "=" == "listener-volume=";
  }

  /** What one piece sets, by what stands before its first "=": the value ends at the next one. */
  lemma PieceInWords(x: SecretScope, head: string, value: string, more: string)
    requires '=' !in head && '=' !in value
    ensures var set_ := if head == "pod" then x.(pod := "pod")
                        else if head == "node" then x.(node := "node")
                        else if head == "service" then x.(services := x.services + [value])
                        else if head == "listener-volume" then x.(listenerVolumes := x.listenerVolumes + [value])
                        else x;
            DecodePiece(x, head + "=" + value) == DecodePiece(x, head + "=" + value + "=" + more) == Some(set_)
    ensures head == "pod" ==> DecodePiece(x, head) == Some(x.(pod := "pod"))
    ensures head == "node" ==> DecodePiece(x, head) == Some(x.(node := "node"))
    ensures head !in ["pod", "node", "service", "listener-volume"] ==> DecodePiece(x, head) == Some(x)
  {
    hide Split;
    SplitOfFree(head, '=');
    SplitAtSeparator(head, '=', value);
    SplitOfFree(value, '=');
    SplitAtSeparator(head, '=', value + "=" + more);
    SplitAtSeparator(value, '=', more);
    assert head + "=" + value + "=" + more == head + "=" + (value + "=" + more);
  }

  // ----- When decoding fails

  lemma {:induction false} SingleSplit(s: string, sep: char)
    ensures |Split(s, sep)| == 1 <==> sep !in s
    ensures |Split(s, sep)| == 1 ==> Split(s, sep) == [s]
  {
    if sep !in s {
      SplitOfFree(s, sep);
    } else {
      JoinSplit(s, sep);
      SplitPiecesFree(s, sep);
    }
  }

  predicate Bare(piece: string) { piece == SERVICE || piece == LISTENER_VOLUME }

  lemma TagsClean()
    ensures '=' !in POD && '=' !in NODE && '=' !in SERVICE && '=' !in LISTENER_VOLUME
    ensures ',' !in POD && ',' !in NODE && ',' !in SERVICE && ',' !in LISTENER_VOLUME
  {
  }

  lemma PieceFailsIff(x: SecretScope, piece: string)
    ensures DecodePiece(x, piece).None? <==> Bare(piece)
  {
    hide Split;
    SingleSplit(piece, '=');
    TagsClean();
  }

  lemma {:induction false} PiecesFailIff(x: SecretScope, pieces: seq<string>)
    ensures DecodePieces(x, pieces).None? <==> exists i :: 0 <= i < |pieces| && Bare(pieces[i])
    decreases |pieces|
  {
    if pieces == [] {
    } else {
      PieceFailsIff(x, pieces[0]);
      if !Bare(pieces[0]) {
        PiecesFailIff(DecodePiece(x, pieces[0]).value, pieces[1..]);
      }
    }
  }

  /** Decoding fails if and only if some piece is a bare `service` or `listener-volume`. */
  lemma DecodeFailsIff(s: string)
    ensures Decode(s).None? <==> SERVICE in Split(s, ',') || LISTENER_VOLUME in Split(s, ',')
  {
    PiecesFailIff(EMPTY, Split(s, ','));
  }

  // ----- Round trips

  predicate CleanName(name: string) { ',' !in name && '=' !in name }

  predicate CleanNames(names: seq<string>) {
    forall i :: 0 <= i < |names| ==> CleanName(names[i])
  }

  /** The scopes that the annotation can carry. */
  predicate Canonical(x: SecretScope) {
    && (x.pod == "" || x.pod == POD)
    && (x.node == "" || x.node == NODE)
    && CleanNames(x.services)
    && CleanNames(x.listenerVolumes)
  }

  lemma {:induction false} SplitWithin(s: string, sep: char, i: nat, c: char)
    requires i < |Split(s, sep)| && c in Split(s, sep)[i]
    ensures c in s
  {
    if s == "" {
    } else {
      var rest := Split(s[1..], sep);
      if s[0] == sep {
        if i > 0 { SplitWithin(s[1..], sep, i - 1, c); }
      } else if i > 0 || c != s[0] {
        SplitWithin(s[1..], sep, i, c);
      }
    }
  }

  lemma PieceKeepsCanonical(x: SecretScope, piece: string)
    requires Canonical(x) && ',' !in piece && DecodePiece(x, piece).Some?
    ensures Canonical(DecodePiece(x, piece).value)
  {
    var kv := Split(piece, '=');
    SplitPiecesFree(piece, '=');
    if |kv| >= 2 && ',' in kv[1] {
      SplitWithin(piece, '=', 1, ',');
    }
  }

  lemma {:induction false} PiecesKeepCanonical(x: SecretScope, pieces: seq<string>)
    requires Canonical(x) && Free(',', pieces) && DecodePieces(x, pieces).Some?
    ensures Canonical(DecodePieces(x, pieces).value)
    decreases |pieces|
  {
    if pieces == [] {
    } else {
      PieceKeepsCanonical(x, pieces[0]);
      PiecesKeepCanonical(DecodePiece(x, pieces[0]).value, pieces[1..]);
    }
  }

  lemma DecodedIsCanonical(s: string)
    requires Decode(s).Some?
    ensures Canonical(Decode(s).value)
  {
    SplitPiecesFree(s, ',');
    PiecesKeepCanonical(EMPTY, Split(s, ','));
  }

  lemma {:induction false} DecodeConcat(x: SecretScope, a: seq<string>, b: seq<string>)
    requires DecodePieces(x, a).Some?
    ensures DecodePieces(x, a + b) == DecodePieces(DecodePieces(x, a).value, b)
    decreases |a|
  {
    if a == [] {
      assert a + b == b;
    } else {
      DecodeConcat(DecodePiece(x, a[0]).value, a[1..], b);
      assert (a + b)[1..] == a[1..] + b;
    }
  }

  lemma SplitTagged(tag: string, name: string)
    requires '=' !in tag && CleanName(name)
    ensures Split(tag + "=" + name, '=') == [tag, name]
  {
    SplitAtSeparator(tag, '=', name);
    SplitOfFree(name, '=');
  }

  lemma TaggedPieces(x: SecretScope, name: string)
    requires CleanName(name)
    ensures DecodePiece(x, SERVICE + "=" + name) == Some(x.(services := x.services + [name]))
    ensures DecodePiece(x, LISTENER_VOLUME + "=" + name) == Some(x.(listenerVolumes := x.listenerVolumes + [name]))
  {
    hide Split;
    TagsClean();
    SplitTagged(SERVICE, name);
    SplitTagged(LISTENER_VOLUME, name);
  }

  lemma {:induction false} DecodeServices(x: SecretScope, names: seq<string>)
    requires CleanNames(names)
    ensures DecodePieces(x, Tagged(SERVICE, names)) == Some(x.(services := x.services + names))
    decreases |names|
  {
    hide DecodePiece;
    if names == [] {
      assert x.services + names == x.services;
    } else {
      var y := x.(services := x.services + [names[0]]);
      TaggedPieces(x, names[0]);
      DecodeServices(y, names[1..]);
      assert y.services + names[1..] == x.services + names;
    }
  }

  lemma {:induction false} DecodeListenerVolumes(x: SecretScope, names: seq<string>)
    requires CleanNames(names)
    ensures DecodePieces(x, Tagged(LISTENER_VOLUME, names)) == Some(x.(listenerVolumes := x.listenerVolumes + names))
    decreases |names|
  {
    hide DecodePiece;
    if names == [] {
      assert x.listenerVolumes + names == x.listenerVolumes;
    } else {
      var y := x.(listenerVolumes := x.listenerVolumes + [names[0]]);
      TaggedPieces(x, names[0]);
      DecodeListenerVolumes(y, names[1..]);
      assert y.listenerVolumes + names[1..] == x.listenerVolumes + names;
    }
  }

  lemma DecodeFlag(x: SecretScope, flag: string)
    requires flag == POD || flag == NODE
    ensures DecodePieces(x, [flag]) == Some(if flag == POD then x.(pod := POD) else x.(node := NODE))
  {
    SplitOfFree(flag, '=');
    assert [flag][1..] == [];
  }

  lemma DecodeOwnPieces(x: SecretScope)
    requires Canonical(x)
    ensures DecodePieces(EMPTY, Pieces(x)) == Some(x)
  {
    hide DecodePiece, Tagged, Split;
    var a := if x.pod == POD then [POD] else [];
    var b := if x.node != "" then [x.node] else [];
    var c, d := Tagged(SERVICE, x.services), Tagged(LISTENER_VOLUME, x.listenerVolumes);
    if a != [] { DecodeFlag(EMPTY, POD); }
    var x1 := EMPTY.(pod := x.pod);
    assert DecodePieces(EMPTY, a) == Some(x1);
    if b != [] { DecodeFlag(x1, NODE); }
    var x2 := x1.(node := x.node);
    assert DecodePieces(x1, b) == Some(x2);
    DecodeConcat(EMPTY, a, b);
    DecodeServices(x2, x.services);
    assert x2.services + x.services == x.services;
    var x3 := x2.(services := x.services);
    DecodeConcat(EMPTY, a + b, c);
    DecodeListenerVolumes(x3, x.listenerVolumes);
    assert x3.listenerVolumes + x.listenerVolumes == x.listenerVolumes;
    DecodeConcat(EMPTY, a + b + c, d);
  }

  lemma {:induction false} TaggedFree(tag: string, names: seq<string>)
    requires ',' !in tag && CleanNames(names)
    ensures Free(',', Tagged(tag, names))
  {
  }

  lemma PiecesFree(x: SecretScope)
    requires Canonical(x)
    ensures Free(',', Pieces(x))
  {
    TaggedFree(SERVICE, x.services);
    TaggedFree(LISTENER_VOLUME, x.listenerVolumes);
  }

  /** Encoding loses nothing if and only if the scope is one the annotation can carry. */
  lemma ScopeRoundTripIff(x: SecretScope)
    ensures Decode(Encode(x)) == Some(x) <==> Canonical(x)
  {
    if Canonical(x) {
      DecodeOwnPieces(x);
      if Pieces(x) != [] {
        PiecesFree(x);
        SplitJoin(Pieces(x), ',');
      } else {
        assert Split("", ',') == [""] && DecodePieces(EMPTY, [""]) == Some(EMPTY);
      }
    }
    if Decode(Encode(x)) == Some(x) {
      DecodedIsCanonical(Encode(x));
    }
  }

  /** Decoding, encoding and decoding again changes nothing. */
  lemma ScopeNormalises(s: string)
    requires Decode(s).Some?
    ensures Decode(Encode(Decode(s).value)) == Decode(s)
  {
    DecodedIsCanonical(s);
    ScopeRoundTripIff(Decode(s).value);
  }
}
