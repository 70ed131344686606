/**
  Selecting a value inside a JSON document by a pointer in the form of RFC 6901. Tokens
  are unescaped by two global replacements; on every token a selector may hold, that is
  the one-pass decoding the standard describes, and it undoes the standard's escaping.
 */
module JsonPointer {
  import opened Prelude
  import opened Text

  datatype Json =
    | JNull | JBool(b: bool) | JNumber(text: string) | JString(s: string)
    | JArray(items: seq<Json>) | JObject(fields: map<string, Json>)

  // Escaping ----------------------------------------------------------------------------------

  /** `strings.ReplaceAll` for a pattern of `~` and one more character. */
  function ReplaceAll(s: string, mark: char, plain: char): string
  {
    if s == "" then ""
    else if |s| >= 2 && s[0] == '~' && s[1] == mark then [plain] + ReplaceAll(s[2..], mark, plain)
    else [s[0]] + ReplaceAll(s[1..], mark, plain)
  }

  function Unescape(token: string): string
  {
    ReplaceAll(ReplaceAll(token, '1', '/'), '0', '~')
  }

  /** Every tilde begins one of the two escapes. */
  predicate WellEscaped(s: string)
  {
    s == "" || (if s[0] == '~' then |s| >= 2 && (s[1] == '0' || s[1] == '1') && WellEscaped(s[2..]) else WellEscaped(s[1..]))
  }

  /** Decoding as section 4 of RFC 6901 means it: left to right, once. */
  function Decode(s: string): string
    requires WellEscaped(s)
  {
    if s == "" then ""
    else if s[0] == '~' then [if s[1] == '0' then '~' else '/'] + Decode(s[2..])
    else [s[0]] + Decode(s[1..])
  }

  function Escape(s: string): string
  {
    if s == "" then ""
    else (if s[0] == '~' then "~0" else if s[0] == '/' then "~1" else [s[0]]) + Escape(s[1..])
  }

  lemma {:induction false} UnescapeDecodes(s: string)
    requires WellEscaped(s)
    ensures Unescape(s) == Decode(s)
  {
    if s != "" {
      if s[0] != '~' {
        UnescapeDecodes(s[1..]);
        KeepFirst(s[0], ReplaceAll(s[1..], '1', '/'));
      } else if s[1] == '0' {
        UnescapeDecodes(s[2..]);
        assert s[1..][1..] == s[2..];
        var rest := ReplaceAll(s[2..], '1', '/');
        assert ReplaceAll(s, '1', '/') == ['~'] + ReplaceAll(s[1..], '1', '/') == ['~'] + (['0'] + rest);
        var once := ['~'] + (['0'] + rest);
        assert once[2..] == rest;
      } else {
        UnescapeDecodes(s[2..]);
        KeepFirst('/', ReplaceAll(s[2..], '1', '/'));
      }
    }
  }

  lemma KeepFirst(c: char, rest: string)
    requires c != '~'
    ensures ReplaceAll([c] + rest, '0', '~') == [c] + ReplaceAll(rest, '0', '~')
  {
    assert ([c] + rest)[1..] == rest;
  }

  lemma {:induction false} EscapeRoundTrip(k: string)
    ensures WellEscaped(Escape(k)) && Decode(Escape(k)) == k && '/' !in Escape(k)
  {
    if k != "" {
      EscapeRoundTrip(k[1..]);
      var e, rest := Escape(k), Escape(k[1..]);
      if k[0] == '~' || k[0] == '/' {
        assert e[2..] == rest;
      } else {
        assert e[1..] == rest;
      }
      assert k == [k[0]] + k[1..];
    }
  }

  /** Escaping a member name and resolving with the two replacements gives the name back. */
  lemma UnescapeUndoesEscape(k: string)
    ensures Unescape(Escape(k)) == k
  {
    EscapeRoundTrip(k);
    UnescapeDecodes(Escape(k));
  }

  // Splitting -----------------------------------------------------------------------------------

  function Split(s: string): (r: seq<string>)
    ensures |r| >= 1
  {
    if s == "" then [""]
    else
      var n := |s| - 1;
      var front := Split(s[..n]);
      if s[n] == '/' then front + [""] else front[..|front| - 1] + [front[|front| - 1] + [s[n]]]
  }

  function Join(tokens: seq<string>): string
    requires |tokens| >= 1
  {
    if |tokens| == 1 then tokens[0] else Join(tokens[..|tokens| - 1]) + "/" + tokens[|tokens| - 1]
  }

  lemma {:induction false} SplitAppend(s: string, t: string)
    requires '/' !in t
    ensures var front := Split(s); Split(s + t) == front[..|front| - 1] + [front[|front| - 1] + t]
  {
    var front := Split(s);
    if t == "" {
      assert s + t == s && front[|front| - 1] + t == front[|front| - 1];
    } else {
      var n := |t| - 1;
      SplitAppend(s, t[..n]);
      assert (s + t)[..|s| + n] == s + t[..n];
      assert t[n] in t;
      assert front[|front| - 1] + t == front[|front| - 1] + t[..n] + [t[n]];
    }
  }

  lemma {:induction false} SplitUndoesJoin(tokens: seq<string>)
    requires |tokens| >= 1 && forall i :: 0 <= i < |tokens| ==> '/' !in tokens[i]
    ensures Split(Join(tokens)) == tokens
  {
    if |tokens| == 1 {
      SplitAppend("", tokens[0]);
      assert "" + tokens[0] == tokens[0];
    } else {
      var n := |tokens| - 1;
      var s := Join(tokens[..n]);
      SplitUndoesJoin(tokens[..n]);
      assert (s + "/")[..|s|] == s;
      assert Split(s + "/") == tokens[..n] + [""];
      SplitAppend(s + "/", tokens[n]);
      assert "" + tokens[n] == tokens[n];
      assert tokens == tokens[..n] + [tokens[n]];
    }
  }

  // Array indices -----------------------------------------------------------------------------------

  const MAX_INT: nat := 0x7FFF_FFFF_FFFF_FFFF

  predicate IsDigits(s: string)
  {
    s != "" && forall i :: 0 <= i < |s| ==> '0' <= s[i] <= '9'
  }

  function Value(s: string): nat
    requires forall i :: 0 <= i < |s| ==> '0' <= s[i] <= '9'
  {
    if s == "" then 0 else 10 * Value(s[..|s| - 1]) + (s[|s| - 1] as int - '0' as int)
  }

  /** `strconv.Atoi`: an optional sign, decimal digits, and the range of a 64-bit integer. */
  function Atoi(s: string): Option<int>
  {
    var signed := s != "" && (s[0] == '+' || s[0] == '-');
    var digits := if signed then s[1..] else s;
    if !IsDigits(digits) then None
    else
      var n: int := if signed && s[0] == '-' then 0 - Value(digits) else Value(digits);
      if -(MAX_INT + 1) <= n <= MAX_INT then Some(n) else None
  }

  function Decimal(n: nat): (r: string)
    ensures IsDigits(r)
  {
    if n < 10 then [('0' as int + n) as char] else Decimal(n / 10) + [('0' as int + n % 10) as char]
  }

  lemma {:induction false} DecimalRoundTrip(n: nat)
    ensures Value(Decimal(n)) == n
  {
    if n >= 10 {
      DecimalRoundTrip(n / 10);
      var r := Decimal(n);
      assert r[..|r| - 1] == Decimal(n / 10);
    } else {
      assert Decimal(n)[..0] == "";
    }
  }

  lemma AtoiReadsDecimal(n: nat)
    requires n <= MAX_INT
    ensures Atoi(Decimal(n)) == Some(n)
  {
    DecimalRoundTrip(n);
    assert '0' <= Decimal(n)[0] <= '9';
  }

  // Resolving ------------------------------------------------------------------------------------------

  /** One token taken from a value. */
  function Child(v: Json, encoded: string): Option<Json>
  {
    var token := Unescape(encoded);
    match v
    case JObject(fields) => if token in fields then Some(fields[token]) else None
    case JArray(items) =>
      (match Atoi(token)
       case None => None
       case Some(i) => if i < 0 || i >= |items| then None else Some(items[i]))
    case _ => None
  }

  function Follow(v: Json, tokens: seq<string>): Option<Json>
  {
    if tokens == [] then Some(v)
    else
      match Follow(v, tokens[..|tokens| - 1])
      case None => None
      case Some(u) => Child(u, tokens[|tokens| - 1])
  }

  function TrimSlash(pointer: string): string
  {
    if pointer != "" && pointer[0] == '/' then pointer[1..] else pointer
  }

  function Resolve(v: Json, pointer: string): Option<Json>
  {
    if pointer == "" then Some(v) else Follow(v, Split(TrimSlash(pointer)))
  }

  lemma {:induction false} FollowFails(v: Json, tokens: seq<string>, n: nat)
    requires n <= |tokens| && Follow(v, tokens[..n]).None?
    ensures Follow(v, tokens).None?
    decreases |tokens| - n
  {
    if n == |tokens| {
      assert tokens[..n] == tokens;
    } else {
      assert tokens[..n + 1][..n] == tokens[..n];
      FollowFails(v, tokens, n + 1);
    }
  }

  method ValueAt(document: Json, pointer: string) returns (r: Option<Json>)
    ensures r == Resolve(document, pointer)
  {
    hide Split, Unescape, Atoi;
    if pointer == "" {
      return Some(document);
    }
    var tokens := Split(TrimSlash(pointer));
    var value := document;
    for i := 0 to |tokens|
      invariant Follow(document, tokens[..i]) == Some(value)
    {
      assert tokens[..i + 1][..i] == tokens[..i];
      var token := Unescape(tokens[i]);
      var next: Option<Json> := None;
      if value.JObject? {
        if token in value.fields {
          next := Some(value.fields[token]);
        }
      } else if value.JArray? {
        var index := Atoi(token);
        if index.Some? && 0 <= index.value < |value.items| {
          next := Some(value.items[index.value]);
        }
      }
      if next.None? {
        FollowFails(document, tokens, i + 1);
        return None;
      }
      value := next.value;
    }
    assert tokens[..|tokens|] == tokens;
    return Some(value);
  }

  /** Digits, behind a sign or not, that come to this number. */
  ghost predicate Writes(token: string, i: nat)
  {
    || (IsDigits(token) && Value(token) == i)
    || (token != "" && token[0] == '+' && IsDigits(token[1..]) && Value(token[1..]) == i)
    || (token != "" && token[0] == '-' && IsDigits(token[1..]) && Value(token[1..]) == 0 == i)
  }

  /** An item is taken exactly by a token that writes its index, leading zeros and signs included, which RFC 6901 does
      not allow. */
  lemma ItemsExactly(items: seq<Json>, encoded: string, i: nat)
    requires i < |items| && |items| <= MAX_INT
    ensures Atoi(Unescape(encoded)) == Some(i) <==> Writes(Unescape(encoded), i)
    ensures Writes(Unescape(encoded), i) ==> Child(JArray(items), encoded) == Some(items[i])
  {
    hide Unescape;
    var token := Unescape(encoded);
    if token != "" && (token[0] == '+' || token[0] == '-') {
      assert !IsDigits(token);
    }
  }

  /** A token that writes no index of the array takes nothing from it. */
  lemma NoItemOtherwise(items: seq<Json>, encoded: string)
    requires |items| <= MAX_INT && forall i: nat :: i < |items| ==> !Writes(Unescape(encoded), i)
    ensures Child(JArray(items), encoded) == None
  {
    hide Unescape, Writes, Atoi;
    var index := Atoi(Unescape(encoded));
    if index.Some? && 0 <= index.value < |items| {
      ItemsExactly(items, encoded, index.value);
    }
  }

  lemma TwoDigits()
    ensures Value("07") == 7
  {
    assert "07"[..1] == "0" && "0"[..0] == "";
  }

  lemma {:induction false} NothingToReplace(s: string, mark: char, plain: char)
    requires '~' !in s
    ensures ReplaceAll(s, mark, plain) == s
  {
    if s != "" {
      NothingToReplace(s[1..], mark, plain);
    }
  }

  /** Such a token: "+07" takes the item that "7" takes. */
  lemma SignsAndZerosAreTaken(items: seq<Json>)
    requires 7 < |items| <= MAX_INT
    ensures Child(JArray(items), "+07") == Some(items[7])
  {
    hide Child, Atoi, ReplaceAll;
    NothingToReplace("+07", '1', '/');
    NothingToReplace("+07", '0', '~');
    TwoDigits();
    assert "+07"[1..] == "07";
    ItemsExactly(items, "+07", 7);
  }

  /** The leading slash is optional, except before nothing. */
  lemma SlashIsOptional(v: Json, pointer: string)
    requires pointer != "" && pointer[0] != '/'
    ensures Resolve(v, pointer) == Resolve(v, "/" + pointer)
  {
    hide Follow, Split;
    assert ("/" + pointer)[1..] == pointer;
  }

  // Nodes and their canonical pointers --------------------------------------------------------------------

  datatype Key = Name(name: string) | Index(index: nat)

  function Walk(v: Json, path: seq<Key>): Option<Json>
  {
    if path == [] then Some(v)
    else
      match Walk(v, path[..|path| - 1])
      case None => None
      case Some(u) =>
        match path[|path| - 1]
        case Name(name) => if u.JObject? && name in u.fields then Some(u.fields[name]) else None
        case Index(i) => if u.JArray? && i < |u.items| then Some(u.items[i]) else None
  }

  /** One step of a walk: into an object by a member's name, into an array by an index. */
  lemma WalksExactly(v: Json, path: seq<Key>, key: Key, x: Json)
    ensures Walk(v, path + [key]) == Some(x) <==>
      && Walk(v, path).Some?
      && var u := Walk(v, path).value;
         || (key.Name? && u.JObject? && key.name in u.fields && u.fields[key.name] == x)
         || (key.Index? && u.JArray? && key.index < |u.items| && u.items[key.index] == x)
  {
    assert (path + [key])[..|path|] == path;
  }

  function Token(key: Key): string
  {
    match key case Name(name) => Escape(name) case Index(i) => Decimal(i)
  }

  function Tokens(path: seq<Key>): (r: seq<string>)
    ensures |r| == |path|
  {
    if path == [] then [] else Tokens(path[..|path| - 1]) + [Token(path[|path| - 1])]
  }

  /** Each component escaped and put behind a slash; the whole document has the empty pointer. */
  function Pointer(path: seq<Key>): string
  {
    if path == [] then "" else "/" + Join(Tokens(path))
  }

  /** Go slices have fewer than 2^63 elements. */
  predicate Indexable(path: seq<Key>)
  {
    forall i :: 0 <= i < |path| && path[i].Index? ==> path[i].index <= MAX_INT
  }

  lemma PlainToken(key: Key)
    ensures '/' !in Token(key) && WellEscaped(Token(key))
    ensures Unescape(Token(key)) == match key case Name(name) => name case Index(i) => Decimal(i)
  {
    match key
    case Name(name) =>
      EscapeRoundTrip(name);
      UnescapeUndoesEscape(name);
    case Index(i) =>
      DigitsArePlain(Decimal(i));
  }

  lemma {:induction false} DigitsArePlain(s: string)
    requires forall i :: 0 <= i < |s| ==> '0' <= s[i] <= '9'
    ensures '/' !in s && WellEscaped(s) && Unescape(s) == s
  {
    if s != "" {
      DigitsArePlain(s[1..]);
      KeepFirst(s[0], ReplaceAll(s[1..], '1', '/'));
      assert s == [s[0]] + s[1..];
    }
  }

  lemma {:induction false} TokensArePlain(path: seq<Key>)
    ensures forall i :: 0 <= i < |path| ==> Tokens(path)[i] == Token(path[i]) && '/' !in Tokens(path)[i] && WellEscaped(Tokens(path)[i])
  {
    hide WellEscaped, Token;
    if path != [] {
      TokensArePlain(path[..|path| - 1]);
      PlainToken(path[|path| - 1]);
    }
  }

  lemma ChildAtKey(v: Json, key: Key)
    requires key.Index? ==> key.index <= MAX_INT
    ensures Walk(v, [key]).Some? ==> Child(v, Token(key)) == Walk(v, [key])
  {
    hide Atoi, Unescape, Token;
    PlainToken(key);
    assert [key][..0] == [];
    if key.Index? {
      AtoiReadsDecimal(key.index);
    }
  }

  lemma {:induction false} FollowWalks(v: Json, path: seq<Key>)
    requires Indexable(path) && Walk(v, path).Some?
    ensures Follow(v, Tokens(path)) == Walk(v, path)
  {
    hide Token, Child, Walk, Follow, Tokens;
    if path == [] {
      NothingToFollow(v);
    } else {
      var n := |path| - 1;
      WalkUnfolds(v, path);
      FollowWalks(v, path[..n]);
      FollowUnfolds(v, path);
      ChildAtKey(Walk(v, path[..n]).value, path[n]);
    }
  }

  lemma NothingToFollow(v: Json)
    ensures Follow(v, Tokens([])) == Walk(v, []) == Some(v)
  {
  }

  lemma WalkUnfolds(v: Json, path: seq<Key>)
    requires path != []
    ensures var u := Walk(v, path[..|path| - 1]);
      Walk(v, path) == if u.None? then None else Walk(u.value, [path[|path| - 1]])
  {
    assert [path[|path| - 1]][..0] == [];
  }

  lemma FollowUnfolds(v: Json, path: seq<Key>)
    requires path != []
    ensures var u := Follow(v, Tokens(path[..|path| - 1]));
      Follow(v, Tokens(path)) == if u.None? then None else Child(u.value, Token(path[|path| - 1]))
  {
    hide Child, Token;
    var t := Tokens(path);
    assert t[..|t| - 1] == Tokens(path[..|path| - 1]);
  }

  /** The canonical pointer of any node of any document resolves to that node. */
  lemma CanonicalPointerResolves(v: Json, path: seq<Key>)
    requires Indexable(path) && Walk(v, path).Some?
    ensures Resolve(v, Pointer(path)) == Walk(v, path)
  {
    hide Split, Join, Token, Follow, WellEscaped;
    if path != [] {
      TokensArePlain(path);
      SplitUndoesJoin(Tokens(path));
      assert Pointer(path)[1..] == Join(Tokens(path));
      FollowWalks(v, path);
    }
  }

  // Selectors -------------------------------------------------------------------------------------------

  /** What a selector keeps of a pointer: it is trimmed, must start with a slash unless empty, and every token
      must be well escaped. */
  function Normalize(pointer: string): Option<string>
  {
    var p := TrimSpace(pointer);
    if p != "" && p[0] != '/' then None
    else if exists i :: 0 <= i < |Split(TrimSlash(p))| && !WellEscaped(Split(TrimSlash(p))[i]) then None
    else Some(p)
  }

  method CheckToken(token: string) returns (ok: bool)
    ensures ok <==> WellEscaped(token)
  {
    var index := 0;
    while index < |token|
      invariant 0 <= index <= |token|
      invariant WellEscaped(token) <==> WellEscaped(token[index..])
    {
      assert token[index..][1..] == token[index + 1..];
      if token[index] == '~' && (index + 1 >= |token| || (token[index + 1] != '0' && token[index + 1] != '1')) {
        return false;
      }
      if token[index] == '~' {
        assert token[index..][2..] == token[index + 2..];
        index := index + 1;
      }
      index := index + 1;
    }
    assert token[|token|..] == "";
    return true;
  }

  method NormalizePointer(pointer: string) returns (r: Option<string>)
    ensures r == Normalize(pointer)
  {
    hide Split, WellEscaped, TrimSpace;
    var p := TrimSpace(pointer);
    if p != "" && p[0] != '/' {
      return None;
    }
    var tokens := Split(TrimSlash(p));
    for i := 0 to |tokens|
      invariant forall j :: 0 <= j < i ==> WellEscaped(tokens[j])
    {
      var ok := CheckToken(tokens[i]);
      if !ok {
        return None;
      }
    }
    return Some(p);
  }

  /** The last component is a member name that ends in white space. */
  predicate EndsInSpace(path: seq<Key>)
  {
    && path != [] && path[|path| - 1].Name?
    && var name := path[|path| - 1].name; name != "" && IsSpace(name[|name| - 1])
  }

  lemma {:induction false} EscapeEnd(k: string)
    requires k != ""
    ensures Escape(k) != "" && (IsSpace(Escape(k)[|Escape(k)| - 1]) <==> IsSpace(k[|k| - 1]))
  {
    if |k| > 1 {
      EscapeEnd(k[1..]);
      assert Escape(k)[|Escape(k)| - 1] == Escape(k[1..])[|Escape(k[1..])| - 1];
    } else {
      assert k[1..] == "";
      assert Escape(k[1..]) == "";
    }
  }

  lemma PointerEnd(path: seq<Key>)
    requires path != []
    ensures Pointer(path) != "" && Pointer(path)[0] == '/' && (IsSpace(Pointer(path)[|Pointer(path)| - 1]) <==> EndsInSpace(path))
  {
    hide Escape, Decimal, Join;
    var t := Tokens(path);
    var last := t[|t| - 1];
    JoinEnd(t);
    var key := path[|path| - 1];
    if key.Name? {
      if key.name != "" {
        EscapeEnd(key.name);
      } else {
        EscapeNothing();
      }
    } else {
      assert '0' <= last[|last| - 1] <= '9';
    }
  }

  lemma EscapeNothing()
    ensures Escape("") == ""
  {
  }

  lemma JoinEnd(tokens: seq<string>)
    requires |tokens| >= 1
    ensures var last := tokens[|tokens| - 1]; var p := "/" + Join(tokens);
      if last == "" then p[|p| - 1] == '/' else p[|p| - 1] == last[|last| - 1]
  {
  }

  /** The path without the white space at the end of its last member name. */
  function Cut(path: seq<Key>): seq<Key>
  {
    if path != [] && path[|path| - 1].Name? then path[..|path| - 1] + [Name(TrimRight(path[|path| - 1].name))] else path
  }

  lemma {:induction false} EscapeAppend(k: string, c: char)
    requires IsSpace(c)
    ensures Escape(k + [c]) == Escape(k) + [c]
  {
    if k == "" {
      assert k + [c] == [c] && [c][1..] == "";
    } else {
      assert (k + [c])[1..] == k[1..] + [c];
      EscapeAppend(k[1..], c);
    }
  }

  lemma SpaceEndsPointer(front: seq<Key>, name: string, c: char)
    requires IsSpace(c)
    ensures Pointer(front + [Name(name + [c])]) == Pointer(front + [Name(name)]) + [c]
  {
    hide Escape;
    EscapeAppend(name, c);
    var a, b := front + [Name(name + [c])], front + [Name(name)];
    assert a[..|front|] == front == b[..|front|];
    assert Tokens(a) == Tokens(front) + [Escape(name) + [c]] && Tokens(b) == Tokens(front) + [Escape(name)];
    assert Tokens(a)[..|front|] == Tokens(front) == Tokens(b)[..|front|];
  }

  lemma TrimOneMore(s: string, c: char)
    requires IsSpace(c) && s != "" && !IsSpace(s[0])
    ensures TrimSpace(s + [c]) == TrimSpace(s)
  {
    assert (s + [c])[..|s|] == s;
  }

  lemma {:induction false} TrimmedPointer(path: seq<Key>)
    ensures TrimSpace(Pointer(path)) == Pointer(Cut(path)) && !EndsInSpace(Cut(path))
    decreases if path != [] && path[|path| - 1].Name? then |path[|path| - 1].name| else 0
  {
    hide Pointer, TrimSpace;
    if !EndsInSpace(path) {
      NothingToCut(path);
    } else {
      var n := |path| - 1;
      var name := path[n].name;
      var shorter, c := name[..|name| - 1], name[|name| - 1];
      var less := path[..n] + [Name(shorter)];
      assert shorter + [c] == name;
      assert path == path[..n] + [Name(shorter + [c])];
      SpaceEndsPointer(path[..n], shorter, c);
      PointerEnd(less);
      TrimOneMore(Pointer(less), c);
      TrimmedPointer(less);
      assert Cut(less) == Cut(path);
    }
  }

  lemma NothingToCut(path: seq<Key>)
    requires !EndsInSpace(path)
    ensures Cut(path) == path && TrimSpace(Pointer(path)) == Pointer(path)
  {
    hide Tokens, Join;
    if path != [] {
      PointerEnd(path);
    }
  }

  lemma CanonicalIsAccepted(path: seq<Key>)
    requires !EndsInSpace(path)
    ensures Normalize(Pointer(path)) == Some(Pointer(path))
  {
    hide WellEscaped, Split, Join, Tokens;
    if path != [] {
      PointerEnd(path);
      TokensArePlain(path);
      SplitUndoesJoin(Tokens(path));
      assert Pointer(path)[1..] == Join(Tokens(path));
    } else {
      assert Split("") == [""] by { SplitUndoesJoin([""]); JoinOne(""); }
      assert WellEscaped("") by { NothingIsEscaped(); }
    }
  }

  /** A selector accepts every canonical pointer and turns it into that of the path without white space at the end; so
      it keeps the pointer exactly when its last component is not a member name ending in white space. */
  lemma SelectorKeepsExactly(path: seq<Key>)
    ensures Normalize(Pointer(path)) == Some(Pointer(Cut(path)))
    ensures Normalize(Pointer(path)) == Some(Pointer(path)) <==> !EndsInSpace(path)
  {
    hide Pointer, Split, WellEscaped, TrimSpace, Cut;
    TrimmedPointer(path);
    NothingToCut(Cut(path));
    CanonicalIsAccepted(Cut(path));
    if !EndsInSpace(path) {
      NothingToCut(path);
    } else {
      PointerIsTrimmed(path);
    }
  }

  lemma PointerIsTrimmed(path: seq<Key>)
    requires EndsInSpace(path)
    ensures TrimSpace(Pointer(path)) != Pointer(path)
  {
    hide Pointer, TrimLeft, TrimRight;
    PointerEnd(path);
  }

  lemma JoinOne(t: string)
    ensures Join([t]) == t
  {
  }

  lemma NothingIsEscaped()
    ensures WellEscaped("")
  {
  }

  /** Selecting any node by its canonical pointer reaches it, except in that one case. */
  lemma SelectedNodeIsReached(v: Json, path: seq<Key>)
    requires Indexable(path) && Walk(v, path).Some? && !EndsInSpace(path)
    ensures Normalize(Pointer(path)).Some? && Resolve(v, Normalize(Pointer(path)).value) == Walk(v, path)
  {
    hide Normalize, Pointer, Resolve, Walk;
    SelectorKeepsExactly(path);
    CanonicalPointerResolves(v, path);
  }

  /** A member named "a " cannot be selected: its pointer is cut to that of "a". */
  lemma TrailingSpaceIsLost(x: Json)
    ensures var v := JObject(map["a " := x]); var path := [Name("a ")];
      && Walk(v, path) == Some(x) && Pointer(path) == "/a " && Normalize("/a ") == Some("/a")
      && Resolve(v, "/a") == None
  {
    hide Pointer, Normalize, Resolve;
    var path := [Name("a ")];
    assert path[..0] == [];
    PointerToSpaced();
    SpacedIsCut();
    CutFindsNothing(x);
  }

  lemma PointerToSpaced()
    ensures Pointer([Name("a ")]) == "/a "
  {
    hide Escape;
    var path := [Name("a ")];
    EscapeSpaced();
    assert path[..0] == [];
    assert Tokens(path) == [Escape("a ")];
    JoinOne(Escape("a "));
  }

  lemma EscapeSpaced()
    ensures Escape("a ") == "a "
  {
    assert "a "[1..] == " " && " "[1..] == "";
  }

  lemma SpacedIsCut()
    ensures Normalize("/a ") == Some("/a")
  {
    hide Split, WellEscaped, TrimSpace;
    TrimSpaced();
    assert TrimSlash("/a") == "a";
    JoinOne("a");
    SplitUndoesJoin(["a"]);
    PlainA();
  }

  lemma TrimSpaced()
    ensures TrimSpace("/a ") == "/a"
  {
    assert "/a "[..2] == "/a";
  }

  lemma PlainA()
    ensures Unescape("a") == "a" && WellEscaped("a")
  {
    assert "a"[1..] == "";
  }

  lemma CutFindsNothing(x: Json)
    ensures Resolve(JObject(map["a " := x]), "/a") == None
  {
    hide Unescape, Atoi;
    var v := JObject(map["a " := x]);
    assert TrimSlash("/a") == "a";
    JoinOne("a");
    SplitUndoesJoin(["a"]);
    PlainA();
    assert ["a"][..0] == [];
    assert Child(v, "a") == None;
    assert Follow(v, ["a"]) == None;
  }

  /** A value without members or items. */
  predicate Scalar(x: Json)
  {
    !x.JObject? && !x.JArray?
  }

  lemma MarksAreVisible()
    ensures !IsSpace('~') && !IsSpace('/')
  {
  }

  lemma {:induction false} DecodeEnd(t: string)
    requires WellEscaped(t) && t != ""
    ensures Decode(t) != "" && (IsSpace(Decode(t)[|Decode(t)| - 1]) ==> IsSpace(t[|t| - 1]))
  {
    hide IsSpace;
    MarksAreVisible();
    var k := if t[0] == '~' then 2 else 1;
    var rest := Decode(t[k..]);
    if |t| > k {
      DecodeEnd(t[k..]);
      assert t[k..][|t[k..]| - 1] == t[|t| - 1];
      assert Decode(t)[|Decode(t)| - 1] == rest[|rest| - 1];
    } else {
      assert t[k..] == "";
    }
  }

  /** What a kept token decodes to does not end in white space unless the token does. */
  lemma UnescapeEnd(t: string)
    requires WellEscaped(t)
    ensures Unescape(t) != "" && IsSpace(Unescape(t)[|Unescape(t)| - 1]) ==> t != "" && IsSpace(t[|t| - 1])
  {
    hide Unescape;
    UnescapeDecodes(t);
    if t != "" {
      DecodeEnd(t);
    }
  }

  lemma {:induction false} OneToken(s: string)
    requires |Split(s)| == 1
    ensures Split(s) == [s]
  {
    if s != "" {
      OneToken(s[..|s| - 1]);
      assert s == s[..|s| - 1] + [s[|s| - 1]];
    }
  }

  lemma FollowTwo(v: Json, tokens: seq<string>)
    requires |tokens| >= 2 && (Child(v, tokens[0]).Some? ==> Scalar(Child(v, tokens[0]).value))
    ensures Follow(v, tokens).None?
  {
    hide Unescape, Atoi;
    var two := tokens[..2];
    assert two[..1] == [tokens[0]] && two[..1][..0] == [];
    assert Follow(v, two[..1]) == Child(v, tokens[0]);
    FollowFails(v, tokens, 2);
  }

  /** No selector whatever reaches a scalar member whose name ends in white space: every pointer a selector keeps
      resolves to something else or to nothing. */
  lemma NoSelectorReaches(name: string, x: Json, pointer: string)
    requires name != "" && IsSpace(name[|name| - 1]) && Scalar(x)
    ensures Normalize(pointer).Some? ==> Resolve(JObject(map[name := x]), Normalize(pointer).value) != Some(x)
  {
    hide Split, WellEscaped, TrimSpace, Unescape, Follow;
    var v := JObject(map[name := x]);
    if Normalize(pointer).Some? && Normalize(pointer).value != "" {
      var q := Normalize(pointer).value;
      var tokens := Split(TrimSlash(q));
      if |tokens| >= 2 {
        FollowTwo(v, tokens);
      } else {
        OneToken(q[1..]);
        UnescapeEnd(q[1..]);
        FollowOne(v, q[1..]);
      }
    }
  }

  lemma FollowOne(v: Json, token: string)
    ensures Follow(v, [token]) == Child(v, token)
  {
    hide Unescape, Atoi;
    assert [token][..0] == [];
  }
}
