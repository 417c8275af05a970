/** The JavaScript values the handlers inspect, truthiness, and `String.prototype.trim`. */
module Js {

  datatype Option<+T> = None | Some(value: T)

  /** A field of a parsed JSON request body. `Undefined` stands for an absent field;
      `Composite` for an object or an array (both are always truthy). */
  datatype JsValue =
    | Undefined
    | Null
    | Bool(b: bool)
    | Number(n: real)
    | Str(s: string)
    | Composite

  /** JavaScript truthiness: undefined, null, false, 0 and "" are falsy. */
  predicate Truthy(v: JsValue) {
    match v
    case Undefined => false
    case Null => false
    case Bool(b) => b
    case Number(n) => n != 0.0
    case Str(s) => s != ""
    case Composite => true
  }

  /** A string field that may be absent is truthy iff present and non-empty. */
  predicate Filled(f: Option<string>) {
    f.Some? && f.value != ""
  }

  /** ECMAScript LineTerminator code points. */
  predicate IsLineTerminator(c: char) {
    c == '\n' || c == '\r' || c == '\U{2028}' || c == '\U{2029}'
  }

  /** ECMAScript WhiteSpace code points: tab, vertical tab, form feed, ZWNBSP and
      every character of Unicode category Zs. */
  predicate IsWhiteSpace(c: char) {
    c == '\t' || c == '\U{000B}' || c == '\U{000C}' || c == ' ' || c == '\U{00A0}'
    || c == '\U{FEFF}' || c == '\U{1680}' || ('\U{2000}' <= c <= '\U{200A}')
    || c == '\U{202F}' || c == '\U{205F}' || c == '\U{3000}'
  }

  /** The characters `trim` removes from both ends. */
  predicate IsTrimmable(c: char) {
    IsWhiteSpace(c) || IsLineTerminator(c)
  }

  /** Removes the longest all-trimmable prefix. */
  function TrimStart(s: string): (r: string)
    ensures |r| <= |s| && r == s[|s| - |r|..]
    ensures forall i | 0 <= i < |s| - |r| :: IsTrimmable(s[i])
    ensures r != [] ==> !IsTrimmable(r[0])
  {
    if s != [] && IsTrimmable(s[0]) then TrimStart(s[1..]) else s
  }

  /** Removes the longest all-trimmable suffix. */
  function TrimEnd(s: string): (r: string)
    ensures |r| <= |s| && r == s[..|r|]
    ensures forall i | |r| <= i < |s| :: IsTrimmable(s[i])
    ensures r != [] ==> !IsTrimmable(r[|r| - 1])
  {
    if s != [] && IsTrimmable(s[|s| - 1]) then TrimEnd(s[..|s| - 1]) else s
  }

  /** `String.prototype.trim`. */
  function Trim(s: string): (r: string)
    ensures |r| <= |s|
    ensures r != [] ==> !IsTrimmable(r[0]) && !IsTrimmable(r[|r| - 1])
  {
    TrimEnd(TrimStart(s))
  }

  /** A string is blank, so `!s.trim()` holds, exactly when every character is trimmable. */
  lemma TrimBlankIff(s: string)
    ensures Trim(s) == [] <==> forall i | 0 <= i < |s| :: IsTrimmable(s[i])
  {
    var t := TrimStart(s);
    if Trim(s) == [] {
      assert t == [];
    } else {
      var r := Trim(s);
      assert r == t[..|r|];
      assert t[0] == s[|s| - |t|];
      assert !IsTrimmable(s[|s| - |t|]);
    }
  }

  /** Trimming leaves a string whose ends are not trimmable unchanged. */
  lemma TrimKeeps(s: string)
    requires s != [] ==> !IsTrimmable(s[0]) && !IsTrimmable(s[|s| - 1])
    ensures Trim(s) == s
  {
    assert TrimStart(s) == s;
    assert TrimEnd(s) == s;
  }

  /** Trimming removes exactly the padding around a core whose ends are not trimmable. */
  lemma {:induction false} TrimPadded(pre: string, core: string, post: string)
    requires forall i | 0 <= i < |pre| :: IsTrimmable(pre[i])
    requires forall i | 0 <= i < |post| :: IsTrimmable(post[i])
    requires core != [] && !IsTrimmable(core[0]) && !IsTrimmable(core[|core| - 1])
    ensures Trim(pre + core + post) == core
  {
    StartPadded(pre, core + post);
    assert TrimStart(pre + core + post) == core + post by {
      assert pre + core + post == pre + (core + post);
    }
    EndPadded(core, post);
  }

  lemma {:induction false} StartPadded(pre: string, s: string)
    requires forall i | 0 <= i < |pre| :: IsTrimmable(pre[i])
    requires s != [] && !IsTrimmable(s[0])
    ensures TrimStart(pre + s) == s
  {
    if pre != [] {
      assert (pre + s)[1..] == pre[1..] + s;
      StartPadded(pre[1..], s);
    } else {
      assert pre + s == s;
    }
  }

  lemma {:induction false} EndPadded(s: string, post: string)
    requires forall i | 0 <= i < |post| :: IsTrimmable(post[i])
    requires s != [] && !IsTrimmable(s[|s| - 1])
    ensures TrimEnd(s + post) == s
  {
    if post != [] {
      var q := post[..|post| - 1];
      assert (s + post)[..|s + post| - 1] == s + q;
      EndPadded(s, q);
    } else {
      assert s + post == s;
    }
  }

  /** `trim` is idempotent. */
  lemma TrimIdempotent(s: string)
    ensures Trim(Trim(s)) == Trim(s)
  {
    TrimKeeps(Trim(s));
  }
}
