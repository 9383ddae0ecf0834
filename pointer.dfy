/** JSON Pointer evaluation as `_get` does it (share/fruit/python/fruit/agent/config.py:13-37),
    following the syntax of section 3 and the evaluation of section 4 of RFC 6901. */
module JsonPointer {

  import opened Wrappers
  import opened Text
  import opened Decimal
  import opened Json

  /** What `_get` comes back with: the value the pointer selects, the caller's `default` when
      there is nothing at the pointer, or the ValueError it raises for a malformed pointer. */
  datatype Evaluation = Found(value: Value) | Absent | Invalid

  /** The reference tokens of a pointer, still escaped: `path.split('/')[1:]`. */
  function Tokens(path: string): (r: seq<string>)
    ensures forall k :: 0 <= k < |r| ==> '/' !in r[k]
  {
    Split(path, '/')[1..]
  }

  /** A token's key: `~1` becomes `/` first, and only then `~0` becomes `~`. */
  function Unescape(token: string): string
  {
    ReplacePair(ReplacePair(token, '~', '1', '/'), '~', '0', '~')
  }

  function EscapeChar(c: char): string
  {
    if c == '~' then "~0" else if c == '/' then "~1" else [c]
  }

  /** The token that names a key: `~` written as `~0` and `/` as `~1`. */
  function Escape(key: string): (r: string)
    ensures '/' !in r
  {
    if |key| == 0 then [] else EscapeChar(key[0]) + Escape(key[1..])
  }

  /** Escape with only its `~` rule applied: what is left once `~1` is undone. */
  ghost function EscapeTilde(key: string): string
  {
    if |key| == 0 then [] else (if key[0] == '~' then "~0" else [key[0]]) + EscapeTilde(key[1..])
  }

  lemma {:induction false} UndoSlashes(key: string)
    ensures ReplacePair(Escape(key), '~', '1', '/') == EscapeTilde(key)
  {
    if |key| > 0 {
      var rest := Escape(key[1..]);
      UndoSlashes(key[1..]);
      var e := Escape(key);
      assert e == EscapeChar(key[0]) + rest;
      if key[0] == '~' {
        assert e[1..] == "0" + rest;
        assert ReplacePair(e[1..], '~', '1', '/') == "0" + ReplacePair(rest, '~', '1', '/') by {
          assert ("0" + rest)[1..] == rest;
        }
      } else if key[0] == '/' {
        assert e[2..] == rest;
      } else {
        assert e[1..] == rest;
      }
    }
  }

  lemma {:induction false} UndoTildes(key: string)
    ensures ReplacePair(EscapeTilde(key), '~', '0', '~') == key
  {
    if |key| > 0 {
      var rest := EscapeTilde(key[1..]);
      UndoTildes(key[1..]);
      var e := EscapeTilde(key);
      if key[0] == '~' {
        assert e[2..] == rest;
      } else {
        assert e[1..] == rest;
      }
      assert key == [key[0]] + key[1..];
    }
  }

  /** Unescaping undoes escaping: every key, including ones holding `~` and `/`, is named by
      exactly one token. */
  lemma UnescapeEscape(key: string)
    ensures Unescape(Escape(key)) == key
  {
    UndoSlashes(key);
    UndoTildes(key);
  }

  /** The order of the two replacements decides what `~01` means: `~1`, not `/`. */
  lemma UnescapeOrder()
    ensures Unescape("~01") == "~1"
    ensures Unescape("~10") == "/0"
    ensures Unescape("a~1b") == "a/b"
  {
    assert "~01"[1..] == "01" && "01"[1..] == "1" && "1"[1..] == "";
    assert ReplacePair("~01", '~', '1', '/') == "~01";
    assert "~01"[2..] == "1";
    assert "~10"[2..] == "0" && "0"[1..] == "";
    assert ReplacePair("~10", '~', '1', '/') == "/0";
    assert "/0"[1..] == "0";
    assert "a~1b"[1..] == "~1b" && "~1b"[2..] == "b" && "b"[1..] == "";
    assert ReplacePair("a~1b", '~', '1', '/') == "a/b";
    assert "a/b"[1..] == "/b" && "/b"[1..] == "b";
  }

  /** A token without `~` is its own key. */
  lemma UnescapePlain(token: string)
    requires '~' !in token
    ensures Unescape(token) == token
  {
    ReplacePairWithout(token, '~', '1', '/');
    ReplacePairWithout(token, '~', '0', '~');
  }

  /** How a pointer splits: "/" names the empty key, and a trailing "/" adds an empty token. */
  lemma TokensExamples()
    ensures Tokens("/") == [""]
    ensures Tokens("/a/") == ["a", ""]
    ensures Tokens("/a~1b/0") == ["a~1b", "0"]
  {
    SplitJoin(["", ""], '/');
    assert Join(["", ""], '/') == "/";
    SplitJoin(["", "a", ""], '/');
    assert Join(["", "a", ""], '/') == "/a/";
    SplitJoin(["", "a~1b", "0"], '/');
    assert Join(["", "a~1b", "0"], '/') == "/a~1b/0";
  }

  /** `items[i]` on a Python list: a negative index counts from the end; None is IndexError. */
  function ListIndex(items: seq<Value>, i: int): (r: Option<Value>)
    ensures r.Some? <==> -|items| <= i < |items|
    ensures r.Some? ==> r.value == items[i % |items|]
  {
    if 0 <= i < |items| then Some(items[i])
    else if -|items| <= i < 0 then Some(items[|items| + i])
    else None
  }

  /** One step of the walk with an unescaped key (config.py:23-35): a dict member, a list
      element chosen by `int(key, 10)`, or None where `_get` gives up and returns the default. */
  function Step(blob: Value, key: string): Option<Value>
  {
    match blob
    case Obj(m) => if key in m then Some(m[key]) else None
    case Arr(items) =>
      (match ParseInt(key)
       case None => None
       case Some(i) => ListIndex(items, i))
    case _ => None
  }

  /** The walk over the reference tokens, unescaping each one before it is used. */
  function Walk(blob: Value, tokens: seq<string>): (r: Evaluation)
    ensures !r.Invalid?
    decreases |tokens|
  {
    if |tokens| == 0 then Found(blob)
    else match Step(blob, Unescape(tokens[0]))
      case None => Absent
      case Some(next) => Walk(next, tokens[1..])
  }

  /** `_get(path, blob)`: the empty pointer is the whole document, a nonempty one must start
      with "/", and the rest is the walk over its tokens. */
  function Eval(path: string, blob: Value): Evaluation
  {
    if path == "" then Found(blob)
    else if path[..1] != "/" then Invalid
    else Walk(blob, Tokens(path))
  }

  /** The pointer is rejected exactly when it is nonempty and does not start with "/"; the
      empty pointer selects the whole document. */
  lemma EvalCases(path: string, blob: Value)
    ensures Eval("", blob) == Found(blob)
    ensures Eval(path, blob).Invalid? <==> path != "" && path[0] != '/'
  {
  }

  /** The three places `_get` returns the default, and the step that goes on when there is a
      value to go on with. */
  lemma StepCases(blob: Value, token: string, rest: seq<string>)
    ensures var key := Unescape(token);
      && (blob.Obj? && key !in blob.members ==> Walk(blob, [token] + rest) == Absent)
      && (blob.Arr? && (ParseInt(key).None? || !(-|blob.items| <= ParseInt(key).value < |blob.items|))
          ==> Walk(blob, [token] + rest) == Absent)
      && (!blob.Obj? && !blob.Arr? ==> Walk(blob, [token] + rest) == Absent)
      && (Step(blob, key).Some? ==> Walk(blob, [token] + rest) == Walk(Step(blob, key).value, rest))
  {
    assert ([token] + rest)[0] == token;
    assert ([token] + rest)[1..] == rest;
  }

  /** Walking a pointer's tokens in two parts: the second part starts from where the first
      part ends, and nothing is found when the first part finds nothing. */
  lemma {:induction false} WalkConcat(blob: Value, t1: seq<string>, t2: seq<string>)
    ensures Walk(blob, t1 + t2) ==
      match Walk(blob, t1)
      case Found(b) => Walk(b, t2)
      case other => other
    decreases |t1|
  {
    if |t1| == 0 {
      assert t1 + t2 == t2;
    } else {
      assert (t1 + t2)[0] == t1[0];
      assert (t1 + t2)[1..] == t1[1..] + t2;
      match Step(blob, Unescape(t1[0]))
      case None =>
      case Some(next) => WalkConcat(next, t1[1..], t2);
    }
  }

  function EscapeAll(keys: seq<string>): (r: seq<string>)
    ensures |r| == |keys|
    ensures forall k :: 0 <= k < |keys| ==> r[k] == Escape(keys[k])
  {
    seq(|keys|, k requires 0 <= k < |keys| => Escape(keys[k]))
  }

  lemma EscapeAllConcat(k1: seq<string>, k2: seq<string>)
    ensures EscapeAll(k1 + k2) == EscapeAll(k1) + EscapeAll(k2)
  {
  }

  /** The pointer that names a path of keys: "/" followed by each escaped key. */
  function Pointer(keys: seq<string>): string
  {
    if |keys| == 0 then "" else "/" + Escape(keys[0]) + Pointer(keys[1..])
  }

  lemma {:induction false} PointerJoin(keys: seq<string>)
    requires |keys| > 0
    ensures Pointer(keys) == Join([""] + EscapeAll(keys), '/')
  {
    var e := EscapeAll(keys);
    assert ([""] + e)[1..] == e;
    if |keys| > 1 {
      PointerJoin(keys[1..]);
      var e1 := EscapeAll(keys[1..]);
      assert e[1..] == e1;
      assert ([""] + e1)[1..] == e1;
    }
  }

  /** The tokens of a key path's pointer are its escaped keys. */
  lemma TokensOfPointer(keys: seq<string>)
    requires |keys| > 0
    ensures Tokens(Pointer(keys)) == EscapeAll(keys)
  {
    var pieces := [""] + EscapeAll(keys);
    PointerJoin(keys);
    assert forall k :: 0 <= k < |pieces| ==> '/' !in pieces[k] by {
      forall k | 0 <= k < |pieces| ensures '/' !in pieces[k] {
        if k > 0 { assert pieces[k] == Escape(keys[k - 1]); }
      }
    }
    SplitJoin(pieces, '/');
    assert pieces[1..] == EscapeAll(keys);
  }

  /** A pointer built from keys selects, in the document those keys nest, the value at the
      bottom; keys holding `~` or `/` included. */
  lemma {:induction false} WalkNested(keys: seq<string>, v: Value)
    ensures Walk(Nest(keys, v), EscapeAll(keys)) == Found(v)
  {
    if |keys| > 0 {
      UnescapeEscape(keys[0]);
      assert EscapeAll(keys)[1..] == EscapeAll(keys[1..]);
      WalkNested(keys[1..], v);
    }
  }

  /** The document holding `v` under the path of keys. */
  function Nest(keys: seq<string>, v: Value): Value
  {
    if |keys| == 0 then v else Obj(map[keys[0] := Nest(keys[1..], v)])
  }

  /** Evaluating a key path's pointer walks its escaped keys. */
  lemma EvalPointer(keys: seq<string>, blob: Value)
    requires |keys| > 0
    ensures Eval(Pointer(keys), blob) == Walk(blob, EscapeAll(keys))
  {
    TokensOfPointer(keys);
    assert Pointer(keys)[..1] == "/";
  }

  lemma EvalNested(keys: seq<string>, v: Value)
    ensures Eval(Pointer(keys), Nest(keys, v)) == Found(v)
  {
    if |keys| > 0 {
      EvalPointer(keys, Nest(keys, v));
      WalkNested(keys, v);
    }
  }

  /** Pointer evaluation composes: evaluating the pointer of `k1 + k2` is evaluating the
      pointer of `k2` on what the pointer of `k1` selects. */
  lemma EvalPointerConcat(k1: seq<string>, k2: seq<string>, blob: Value)
    ensures Eval(Pointer(k1 + k2), blob) ==
      match Eval(Pointer(k1), blob)
      case Found(b) => Eval(Pointer(k2), b)
      case other => other
  {
    if |k1| == 0 {
      assert k1 + k2 == k2;
    } else if |k2| == 0 {
      assert k1 + k2 == k1;
      EvalPointer(k1, blob);
    } else {
      EvalPointer(k1, blob);
      EvalPointer(k1 + k2, blob);
      EscapeAllConcat(k1, k2);
      WalkConcat(blob, EscapeAll(k1), EscapeAll(k2));
      match Walk(blob, EscapeAll(k1))
      case Found(b) => EvalPointer(k2, b);
      case Absent =>
    }
  }

  /** `_get(path, blob, default)` (config.py:13-37): the loop over the tokens rebinds `blob`
      at each step and returns at the first step that cannot be taken. */
  method Get(path: string, blob: Value) returns (r: Evaluation)
    ensures r == Eval(path, blob)
  {
    if path == "" {
      return Found(blob);
    }
    if path[..1] != "/" {
      return Invalid;
    }
    var tokens := Tokens(path);
    var cur := blob;
    for i := 0 to |tokens|
      invariant Walk(cur, tokens[i..]) == Walk(blob, tokens)
    {
      assert tokens[i..][1..] == tokens[i + 1..];
      var key := Unescape(tokens[i]);
      match cur
      case Obj(m) =>
        if key !in m {
          return Absent;
        }
        cur := m[key];
      case Arr(items) =>
        var index := ParseInt(key);
        if index.None? {
          return Absent;
        }
        var element := ListIndex(items, index.value);
        if element.None? {
          return Absent;
        }
        cur := element.value;
      case _ =>
        return Absent;
    }
    return Found(cur);
  }
}
