/**
 * Placeholder substitution: `name.gsub(/<([^>]*)>/) { Hash[headers.zip(row)][$1] }`.
 *
 * A match starts at a `<` that has a `>` somewhere after it and runs to the
 * first such `>`; matches are taken left to right, never overlap, and the
 * replacement text is not scanned again.  The token's value comes from the
 * hash built from header/value pairs, where a later pair overrides an
 * earlier one with the same header, and a missing key or a `nil` value
 * renders as the empty string.
 */
module Substitution {
  import opened Wrappers

  /** Header/value pairs as `headers.zip(values)` builds them. */
  type Env = seq<(string, Option<string>)>

  /** `headers.zip(values)`: one pair per header; a short `values` pads with `nil`. */
  function Zip<V>(headers: seq<string>, values: seq<V>): seq<(string, Option<V>)> {
    seq(|headers|, i requires 0 <= i < |headers| => (headers[i], if i < |values| then Some(values[i]) else None))
  }

  /** `Hash[pairs][key]`: the value of the last pair with that key, or `nil`. */
  function Lookup<V>(pairs: seq<(string, Option<V>)>, key: string): Option<V>
    decreases |pairs|
  {
    if pairs == [] then None
    else if pairs[|pairs| - 1].0 == key then pairs[|pairs| - 1].1
    else Lookup(pairs[..|pairs| - 1], key)
  }

  lemma {:induction false} LookupLastWins<V>(pairs: seq<(string, Option<V>)>, key: string, i: int)
    requires 0 <= i < |pairs| && pairs[i].0 == key
    requires forall j :: i < j < |pairs| ==> pairs[j].0 != key
    ensures Lookup(pairs, key) == pairs[i].1
    decreases |pairs|
  {
    if i < |pairs| - 1 {
      LookupLastWins(pairs[..|pairs| - 1], key, i);
    }
  }

  lemma {:induction false} LookupMiss<V>(pairs: seq<(string, Option<V>)>, key: string)
    requires forall j :: 0 <= j < |pairs| ==> pairs[j].0 != key
    ensures Lookup(pairs, key) == None
    decreases |pairs|
  {
    if pairs != [] {
      LookupMiss(pairs[..|pairs| - 1], key);
    }
  }

  /** The value under header `headers[i]`, when no later header repeats it,
      is the row's i-th cell, or `nil` when the row is shorter. */
  lemma HeaderLookup<V>(headers: seq<string>, values: seq<V>, i: int)
    requires 0 <= i < |headers|
    requires forall j :: i < j < |headers| ==> headers[j] != headers[i]
    ensures Lookup(Zip(headers, values), headers[i]) == if i < |values| then Some(values[i]) else None
  {
    LookupLastWins(Zip(headers, values), headers[i], i);
  }

  /** A key that is no header looks up `nil`. */
  lemma HeaderMiss<V>(headers: seq<string>, values: seq<V>, key: string)
    requires key !in headers
    ensures Lookup(Zip(headers, values), key) == None
  {
    LookupMiss(Zip(headers, values), key);
  }

  /** How `gsub` renders the block's value: `nil.to_s` is the empty string. */
  function ValueText(v: Option<string>): string {
    match v
    case None => ""
    case Some(s) => s
  }

  /** The position of the first `c` in `s`. */
  function IndexOf(s: string, c: char): (k: nat)
    requires c in s
    ensures k < |s| && s[k] == c
    ensures forall i :: 0 <= i < k ==> s[i] != c
    decreases |s|
  {
    if s[0] == c then 0 else 1 + IndexOf(s[1..], c)
  }

  /** `s.gsub(/<([^>]*)>/) { Hash[env][$1] }`. */
  function Gsub(s: string, env: Env): string
    decreases |s|
  {
    if s == [] then []
    else if s[0] == '<' && '>' in s[1..] then
      var j := 1 + IndexOf(s[1..], '>');
      ValueText(Lookup(env, s[1..j])) + Gsub(s[j + 1..], env)
    else [s[0]] + Gsub(s[1..], env)
  }

  /** `swap(name, headers, row)` with the current row. */
  function Swap(s: string, headers: seq<string>, row: seq<string>): string {
    Gsub(s, Zip(headers, row))
  }

  /** `s` holds no `<` that some later `>` closes, so `gsub` finds no match. */
  ghost predicate NoMatch(s: string) {
    forall i, j :: 0 <= i < j < |s| && s[i] == '<' ==> s[j] != '>'
  }

  /** A string without a match is returned unchanged. */
  lemma {:induction false} GsubNoMatch(s: string, env: Env)
    requires NoMatch(s)
    ensures Gsub(s, env) == s
    decreases |s|
  {
    if s != [] {
      if s[0] == '<' {
        forall k | 0 <= k < |s[1..]|
          ensures s[1..][k] != '>'
        {
          assert s[k + 1] != '>';
        }
      }
      GsubNoMatch(s[1..], env);
      assert s == [s[0]] + s[1..];
    }
  }

  /** One piece of a template: literal text or a `<token>` placeholder. */
  datatype Piece = Lit(text: string) | Hole(token: string)

  /** Literal text holds no `<` and a token holds no `>`: then each
      placeholder is exactly one `gsub` match. */
  ghost predicate PlainPiece(p: Piece) {
    match p
    case Lit(x) => '<' !in x
    case Hole(k) => '>' !in k
  }

  ghost predicate Plain(t: seq<Piece>) {
    forall i :: 0 <= i < |t| ==> PlainPiece(t[i])
  }

  function PieceText(p: Piece): string {
    match p
    case Lit(x) => x
    case Hole(k) => "<" + k + ">"
  }

  /** The template as text. */
  function Print(t: seq<Piece>): string
    decreases |t|
  {
    if t == [] then "" else PieceText(t[0]) + Print(t[1..])
  }

  function PieceValue(p: Piece, env: Env): string {
    match p
    case Lit(x) => x
    case Hole(k) => ValueText(Lookup(env, k))
  }

  /** The template with every placeholder replaced by its token's value. */
  function Fill(t: seq<Piece>, env: Env): string
    decreases |t|
  {
    if t == [] then "" else PieceValue(t[0], env) + Fill(t[1..], env)
  }

  lemma {:induction false} GsubLit(x: string, rest: string, env: Env)
    requires '<' !in x
    ensures Gsub(x + rest, env) == x + Gsub(rest, env)
    decreases |x|
  {
    if x != [] {
      var s := x + rest;
      assert s[0] == x[0] && x[0] != '<';
      assert s[1..] == x[1..] + rest;
      assert Gsub(s, env) == [x[0]] + Gsub(x[1..] + rest, env);
      GsubLit(x[1..], rest, env);
      calc {
        Gsub(s, env);
        [x[0]] + (x[1..] + Gsub(rest, env));
        ([x[0]] + x[1..]) + Gsub(rest, env);
        { assert [x[0]] + x[1..] == x; }
        x + Gsub(rest, env);
      }
    } else {
      assert x + rest == rest;
    }
  }

  lemma GsubHole(k: string, rest: string, env: Env)
    requires '>' !in k
    ensures Gsub("<" + k + ">" + rest, env) == ValueText(Lookup(env, k)) + Gsub(rest, env)
  {
    var s := "<" + k + ">" + rest;
    var u := s[1..];
    assert u == k + ">" + rest;
    assert u[|k|] == '>';
    var m := IndexOf(u, '>');
    assert m == |k| by {
      assert forall i :: 0 <= i < |k| ==> u[i] == k[i];
    }
    assert s[1..1 + m] == k;
    assert s[1 + m + 1..] == rest;
  }

  /** Every placeholder of a plain template is replaced by its value, left
      to right, and a trailing part without a match is kept as it is. */
  lemma {:induction false} GsubFillsTemplate(t: seq<Piece>, tail: string, env: Env)
    requires Plain(t) && NoMatch(tail)
    ensures Gsub(Print(t) + tail, env) == Fill(t, env) + tail
    decreases |t|
  {
    if t == [] {
      assert Print(t) + tail == tail;
      GsubNoMatch(tail, env);
    } else {
      var rest := Print(t[1..]) + tail;
      assert Print(t) + tail == PieceText(t[0]) + rest;
      assert PlainPiece(t[0]);
      assert Plain(t[1..]) by {
        forall i | 0 <= i < |t[1..]| ensures PlainPiece(t[1..][i]) {
          assert t[1..][i] == t[i + 1];
        }
      }
      GsubFillsTemplate(t[1..], tail, env);
      match t[0]
      case Lit(x) =>
        GsubLit(x, rest, env);
      case Hole(k) =>
        assert PieceText(t[0]) + rest == "<" + k + ">" + rest;
        GsubHole(k, rest, env);
    }
  }

  lemma PlainCons(p: Piece, t: seq<Piece>)
    requires PlainPiece(p) && Plain(t)
    ensures Plain([p] + t)
    ensures Print([p] + t) == PieceText(p) + Print(t)
  {
  }

  /** The first match of `s`, when `s` starts with one: the `<` at 0 and the
      first `>` after it at `m + 1`. */
  lemma HoleAtStart(s: string) returns (k: string, rest: string)
    requires s != [] && s[0] == '<' && '>' in s[1..]
    ensures '>' !in k && s == "<" + k + ">" + rest && |rest| < |s|
  {
    var m := IndexOf(s[1..], '>');
    k, rest := s[1..1 + m], s[m + 2..];
    assert k == s[1..][..m];
    assert s == s[..1] + s[1..1 + m] + [s[m + 1]] + s[m + 2..];
  }

  /** Every string is a plain template followed by a tail without a match,
      so `GsubFillsTemplate` determines `Gsub` on all strings. */
  lemma {:induction false} Decompose(s: string) returns (t: seq<Piece>, tail: string)
    ensures Plain(t) && NoMatch(tail)
    ensures Print(t) + tail == s
    decreases |s|
  {
    if s == [] {
      t, tail := [], [];
    } else if s[0] == '<' && '>' in s[1..] {
      var k, rest := HoleAtStart(s);
      var t', tail' := Decompose(rest);
      PlainCons(Hole(k), t');
      t, tail := [Hole(k)] + t', tail';
    } else if s[0] == '<' {
      t, tail := [], s;
      forall i, j | 0 <= i < j < |s| && s[i] == '<'
        ensures s[j] != '>'
      {
        assert s[j] == s[1..][j - 1];
      }
    } else {
      var t', tail' := Decompose(s[1..]);
      PlainCons(Lit([s[0]]), t');
      t, tail := [Lit([s[0]])] + t', tail';
      assert s == [s[0]] + s[1..];
    }
  }

  /** A placeholder whose header is the i-th (and last such) header takes the
      row's i-th cell, or the empty string when the row is shorter. */
  lemma SwapToken(headers: seq<string>, row: seq<string>, i: int)
    requires 0 <= i < |headers| && '>' !in headers[i]
    requires forall j :: i < j < |headers| ==> headers[j] != headers[i]
    ensures Swap("<" + headers[i] + ">", headers, row) == if i < |row| then row[i] else ""
  {
    var env := Zip(headers, row);
    assert "<" + headers[i] + ">" == "<" + headers[i] + ">" + "";
    GsubHole(headers[i], "", env);
    HeaderLookup(headers, row, i);
  }

  /** Text around one placeholder is kept; the placeholder takes its value. */
  lemma SwapOnePlaceholder(pre: string, post: string, headers: seq<string>, row: seq<string>, i: int)
    requires '<' !in pre && '<' !in post
    requires 0 <= i < |headers| && '>' !in headers[i]
    requires forall j :: i < j < |headers| ==> headers[j] != headers[i]
    ensures Swap(pre + "<" + headers[i] + ">" + post, headers, row)
            == pre + (if i < |row| then row[i] else "") + post
  {
    var env := Zip(headers, row);
    var k := headers[i];
    assert pre + "<" + k + ">" + post == pre + ("<" + k + ">" + post);
    GsubLit(pre, "<" + k + ">" + post, env);
    GsubHole(k, post, env);
    GsubNoMatch(post, env);
    HeaderLookup(headers, row, i);
  }

  /** A placeholder that names no header becomes the empty string. */
  lemma SwapMissingToken(headers: seq<string>, row: seq<string>, key: string)
    requires '>' !in key && key !in headers
    ensures Swap("<" + key + ">", headers, row) == ""
  {
    var env := Zip(headers, row);
    assert "<" + key + ">" == "<" + key + ">" + "";
    GsubHole(key, "", env);
    HeaderMiss(headers, row, key);
  }

  /** A token runs up to the first `>`, so `<a<b>` is the one token `a<b`. */
  lemma SwapTokenRunsToFirstClose()
    ensures Swap("<a<b>", ["a<b"], ["X"]) == "X"
  {
  }

  /** A `<` that no `>` closes is left as it is. */
  lemma SwapLeavesOpenBracket()
    ensures Swap("x <a", ["a"], ["1"]) == "x <a"
  {
  }

  /** Replacement text is not scanned again: a value `<b>` stays literal
      even though `b` is a header too. */
  lemma SwapDoesNotRescan()
    ensures Swap("<a>", ["a", "b"], ["<b>", "B"]) == "<b>"
  {
  }
}
