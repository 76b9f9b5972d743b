/** Paths such as ".a[3][__formData|Skyrim.esm|0x14]": printing, parsing, walking. */
module Paths {
  import opened Wrappers
  import opened Numerals
  import opened FormCodec
  import opened Graph
  import opened Collections

  const PATH_LENGTH_MAX := 1024

  datatype KeyAndRest = KeyAndRest(key: Key, rest: string)

  function IndexOfAny(s: string, c: char, d: char): (i: nat)
    ensures i <= |s| && c !in s[..i] && d !in s[..i]
    ensures i < |s| ==> s[i] == c || s[i] == d
  {
    if s == [] || s[0] == c || s[0] == d then 0 else 1 + IndexOfAny(s[1..], c, d)
  }

  function MapRule(path: string): Option<KeyAndRest>
  {
    if !StartsWith(path, ".") || |path| < 2 then None
    else
      var body := path[1..];
      var end := IndexOfAny(body, '.', '[');
      if end == 0 then None else Some(KeyAndRest(NameKey(body[..end]), body[end..]))
  }

  function ArrayRule(mods: Mods, path: string): Option<KeyAndRest>
  {
    if !StartsWith(path, "[") || |path| < 3 then None
    else
      var body := path[1..];
      var end := IndexOf(body, ']');
      // With no ']' the source forms an iterator past the end; the model takes that as a failed parse.
      if end == 0 || end == |body| then None
      else
        var rest := body[end + 1..];
        if IsFormString(body) then
          // the id is read from here to the end of the string, not just up to ']'
          match StringToForm(mods, body)
          case None => None
          case Some(form) => Some(KeyAndRest(FormKey(form), rest))
        else
          match Stoi(body[..end])
          case None => None
          case Some(index) => Some(KeyAndRest(IntKey(index), rest))
  }

  /** ca::parse_path: the first key of the path and what follows it. */
  function ParsePath(mods: Mods, path: string): (r: Option<KeyAndRest>)
    ensures r.Some? ==> |r.value.rest| < |path|
  {
    match ArrayRule(mods, path)
    case Some(kr) => Some(kr)
    case None => MapRule(path)
  }

  // ------------------------------------------------------------------ printing

  /** The text path_to_object appends for one key. Only keys that encode get into a path. */
  function PrintKey(mods: Mods, k: Key): string
  {
    match k
    case NameKey(name) => "." + name
    case IntKey(index) => "[" + Decimal(index) + "]"
    case FormKey(form) =>
      match FormToString(mods, form)
      case None => "[]"
      case Some(s) => "[" + s + "]"
  }

  function PrintKeys(mods: Mods, ks: seq<Key>): string
  {
    if ks == [] then "" else PrintKeys(mods, ks[..|ks| - 1]) + PrintKey(mods, ks[|ks| - 1])
  }

  /** A name that a path can spell. */
  predicate PathName(name: string)
  {
    name != "" && '.' !in name && '[' !in name
  }

  predicate PathKey(mods: Mods, k: Key)
  {
    match k
    case NameKey(name) => PathName(name)
    case IntKey(_) => true
    case FormKey(form) =>
      match FormToString(mods, form)
      case None => false
      case Some(s) => NameLeadsBack(mods, form) && ']' !in s
  }

  predicate PathKeys(mods: Mods, ks: seq<Key>)
  {
    forall i | 0 <= i < |ks| :: PathKey(mods, ks[i])
  }

  predicate KeyBoundary(rest: string)
  {
    rest == [] || rest[0] == '.' || rest[0] == '['
  }

  lemma {:induction false} IndexOfAnyAfter(a: string, c: char, d: char, rest: string)
    requires c !in a && d !in a
    requires rest == [] || rest[0] == c || rest[0] == d
    ensures IndexOfAny(a + rest, c, d) == |a|
  {
    if a == [] {
      assert a + rest == rest;
    } else {
      assert (a + rest)[1..] == a[1..] + rest;
      IndexOfAnyAfter(a[1..], c, d, rest);
    }
  }

  lemma NameRule(mods: Mods, path: string, name: string, rest: string)
    requires StartsWith(path, ".") && path[1..] == name + rest
    requires PathName(name) ==> IndexOfAny(name + rest, '.', '[') == |name|
    ensures ParsePath(mods, path) == Some(KeyAndRest(NameKey(name), rest)) <==> PathName(name)
  {
    assert path[0] == '.';
    var end := IndexOfAny(name + rest, '.', '[');
    assert ArrayRule(mods, path) == None;
    if PathName(name) {
      assert (name + rest)[..end] == name && (name + rest)[end..] == rest;
    } else {
      assert ParsePath(mods, path).Some? ==> PathName((name + rest)[..end]);
    }
  }

  /** A printed name parses back exactly when it is non-empty and free of '.' and '['. */
  lemma ParsePrintedName(mods: Mods, name: string, rest: string)
    requires KeyBoundary(rest)
    ensures ParsePath(mods, "." + name + rest) == Some(KeyAndRest(NameKey(name), rest)) <==> PathName(name)
  {
    hide ParsePath, IndexOfAny;
    var path := "." + name + rest;
    assert path[..1] == "." && path[1..] == name + rest;
    if PathName(name) {
      IndexOfAnyAfter(name, '.', '[', rest);
    }
    NameRule(mods, path, name, rest);
  }

  lemma SplitBracket(inner: string, rest: string)
    requires inner != "" && ']' !in inner
    ensures var path := "[" + inner + "]" + rest;
            && StartsWith(path, "[") && |path| >= 3 && path[1..] == inner + "]" + rest
            && IndexOf(path[1..], ']') == |inner|
            && path[1..][..|inner|] == inner && path[1..][|inner| + 1..] == rest
  {
    var path := "[" + inner + "]" + rest;
    assert path[1..] == inner + [']'] + rest;
    assert path[..1] == "[";
    IndexOfAfter(inner, ']', rest);
  }

  lemma IndexRule(mods: Mods, path: string, inner: string, rest: string, index: Int32)
    requires StartsWith(path, "[") && |path| >= 3 && inner != ""
    requires IndexOf(path[1..], ']') == |inner| < |path[1..]|
    requires path[1..][..|inner|] == inner && path[1..][|inner| + 1..] == rest
    requires !IsFormString(path[1..]) && Stoi(inner) == Some(index)
    ensures ParsePath(mods, path) == Some(KeyAndRest(IntKey(index), rest))
  {
    hide IndexOf, Stoi, StringToForm, IsFormString, StartsWith;
  }

  lemma FormRule(mods: Mods, path: string, inner: string, rest: string)
    requires StartsWith(path, "[") && |path| >= 3 && inner != ""
    requires IndexOf(path[1..], ']') == |inner| < |path[1..]|
    requires path[1..][|inner| + 1..] == rest
    requires IsFormString(path[1..])
    ensures ParsePath(mods, path) ==
            match StringToForm(mods, path[1..])
            case None => None
            case Some(form) => Some(KeyAndRest(FormKey(form), rest))
  {
    assert path[0] == '[';
    assert MapRule(path) == None;
    hide IndexOf, Stoi, StringToForm, IsFormString, StartsWith;
  }

  lemma NoFormString(s: string)
    requires s != "" && s[0] != '_'
    ensures !IsFormString(s)
  {
  }

  lemma DecimalText(index: Int32)
    ensures Decimal(index) != "" && Decimal(index)[0] != '_' && ']' !in Decimal(index)
    ensures Stoi(Decimal(index)) == Some(index)
  {
    ReadDecimal(index, []);
    assert Decimal(index) + [] == Decimal(index);
  }

  lemma ParsePrintedIndex(mods: Mods, index: Int32, rest: string)
    ensures ParsePath(mods, "[" + Decimal(index) + "]" + rest) == Some(KeyAndRest(IntKey(index), rest))
  {
    hide ParsePath, Decimal, Stoi, IndexOf, StartsWith, IsFormString;
    var inner := Decimal(index);
    DecimalText(index);
    SplitBracket(inner, rest);
    NoFormString(inner + "]" + rest);
    IndexRule(mods, "[" + inner + "]" + rest, inner, rest, index);
  }

  lemma FormText(mods: Mods, form: FormId, s: string, rest: string)
    requires FormToString(mods, form) == Some(s) && (HasBar(mods, form) ==> ResolvesByName(mods))
    ensures s != "" && IsFormString(s + "]" + rest)
    ensures StringToForm(mods, s + "]" + rest) == Some(form) <==> NameLeadsBack(mods, form)
  {
    hide FormToString, StringToForm;
    RoundTrip(mods, form, s, "]" + rest);
    FormShape(mods, form, s);
    var body := s + "]" + rest;
    assert body == s + ("]" + rest) && body[..|PREFIX|] == s[..|PREFIX|];
  }

  /** What is left of a path after a key whose text has a bracket of its own. */
  function AfterBracket(inner: string, rest: string): (after: string)
    requires ']' in inner
    ensures after != ""
  {
    inner[IndexOf(inner, ']') + 1..] + "]" + rest
  }

  lemma BracketFound(inner: string, rest: string)
    requires ']' in inner
    ensures var path, end := "[" + inner + "]" + rest, IndexOf(inner, ']');
            && StartsWith(path, "[") && !StartsWith(path, ".") && IndexOf(path[1..], ']') == end < |path[1..]|
            && path[1..][end + 1..] == AfterBracket(inner, rest)
  {
    var path := "[" + inner + "]" + rest;
    var end := IndexOf(inner, ']');
    var before, after := inner[..end], AfterBracket(inner, rest);
    assert path[1..] == before + [']'] + after;
    assert path[0] == '[' && path[..1] == "[";
    IndexOfAfter(before, ']', after);
  }

  lemma CutAtBracket(mods: Mods, inner: string, rest: string)
    requires ']' in inner
    ensures var r := ParsePath(mods, "[" + inner + "]" + rest);
            r.Some? ==> r.value.rest == AfterBracket(inner, rest)
  {
    BracketFound(inner, rest);
    hide StringToForm, IsFormString, Stoi, IndexOf, AfterBracket, StartsWith;
  }

  /** A form key parses back exactly if the form's string decodes to it and has no bracket of its own. */
  lemma ParsePrintedForm(mods: Mods, form: FormId, s: string, rest: string)
    requires FormToString(mods, form) == Some(s) && (HasBar(mods, form) ==> ResolvesByName(mods))
    ensures ParsePath(mods, "[" + s + "]" + rest) == Some(KeyAndRest(FormKey(form), rest))
       <==> NameLeadsBack(mods, form) && ']' !in s
  {
    hide ParsePath, FormToString, StringToForm, IndexOf, StartsWith, IsFormString;
    if ']' in s {
      CutAtBracket(mods, s, rest);
      assert |AfterBracket(s, rest)| > |rest|;
    } else {
      FormText(mods, form, s, rest);
      SplitBracket(s, rest);
      FormRule(mods, "[" + s + "]" + rest, s, rest);
    }
  }

  lemma ParsePrintedNothing(mods: Mods, rest: string)
    ensures ParsePath(mods, "[]" + rest).None?
  {
    var path := "[]" + rest;
    assert path[0] == '[' && path[..1] == "[" && path[1..][0] == ']';
    assert IndexOf(path[1..], ']') == 0;
  }

  /** Parsing undoes printing exactly for the names, indices and form keys that a path can hold. */
  lemma ParsePrinted(mods: Mods, k: Key, rest: string)
    requires KeyBoundary(rest) && (k.FormKey? && HasBar(mods, k.form) ==> ResolvesByName(mods))
    ensures ParsePath(mods, PrintKey(mods, k) + rest) == Some(KeyAndRest(k, rest)) <==> PathKey(mods, k)
  {
    hide ParsePath, FormToString;
    match k
    case NameKey(name) => ParsePrintedName(mods, name, rest);
    case IntKey(index) => ParsePrintedIndex(mods, index, rest);
    case FormKey(form) =>
      if FormToString(mods, form).Some? {
        ParsePrintedForm(mods, form, FormToString(mods, form).value, rest);
      } else {
        ParsePrintedNothing(mods, rest);
      }
  }

  /** How keys are printed. */
  lemma KeysPrinted(mods: Mods, ks: seq<Key>, k: Key)
    ensures PrintKeys(mods, []) == ""
    ensures
      var last :=
        if k.NameKey? then "." + k.name
        else if k.IntKey? then "[" + Decimal(k.index) + "]"
        else if FormToString(mods, k.form).Some? then "[" + FormToString(mods, k.form).value + "]"
        else "[]";
      PrintKeys(mods, ks + [k]) == PrintKeys(mods, ks) + last
  {
    assert (ks + [k])[..|ks|] == ks;
  }

  /** The text between brackets that is no form string is an integer with base 0, or the path does not parse. */
  lemma ParseIndexText(mods: Mods, inner: string, rest: string)
    requires inner != "" && ']' !in inner && !StartsWith(inner + "]" + rest, "__formData|")
    ensures ParsePath(mods, "[" + inner + "]" + rest) ==
            match Stoi(inner) case None => None case Some(index) => Some(KeyAndRest(IntKey(index), rest))
  {
    var path := "[" + inner + "]" + rest;
    SplitBracket(inner, rest);
    assert path[0] == '[' && MapRule(path) == None;
    hide Stoi, IndexOf, StringToForm;
  }

  /** What neither starts with a dot and a name nor with a bracket and its text is no path. */
  lemma NotAPath(mods: Mods, rest: string)
    ensures ParsePath(mods, "").None? && ParsePath(mods, ".").None? && ParsePath(mods, "[").None?
    ensures rest != "" && rest[0] in ".[" ==> ParsePath(mods, "." + rest).None?
    ensures ParsePath(mods, "[]" + rest).None?
  {
    ParsePrintedNothing(mods, rest);
    assert ("." + rest)[0] == '.' && ("." + rest)[1..] == rest;
    hide StringToForm, Stoi;
  }

  // ------------------------------------------------------------------ walking

  datatype Access = Access(collection: Addr, key: Key)

  /** access_constant after the length limit: the container and key of the last step. */
  function Retrieve(mods: Mods, heap: Heap, a: Addr, path: string): Option<Access>
    decreases |path|
  {
    match ParsePath(mods, path)
    case None => None
    case Some(kr) =>
      if kr.rest == "" then Some(Access(a, kr.key))
      else
        match Step(heap, a, kr.key)
        case None => None
        case Some(b) => Retrieve(mods, heap, b, kr.rest)
  }

  function Step(heap: Heap, a: Addr, k: Key): Option<Addr>
  {
    if a !in heap then None
    else
      match Get(heap[a], k)
      case Some(Object(b)) => Some(b)
      case _ => None
  }

  function Limit(path: string): string
  {
    if |path| <= PATH_LENGTH_MAX then path else path[..PATH_LENGTH_MAX]
  }

  /** ca::access_constant */
  function AccessConstant(mods: Mods, heap: Heap, a: Addr, path: string): Option<Access>
  {
    Retrieve(mods, heap, a, Limit(path))
  }

  /** ca::get, and what a constant ca::visit_value visits. */
  function GetAt(mods: Mods, heap: Heap, a: Addr, path: string): Option<Item>
  {
    match AccessConstant(mods, heap, a, path)
    case None => None
    case Some(acc) => if acc.collection in heap then Get(heap[acc.collection], acc.key) else None
  }

  /** In an isomorphic graph a path, whatever its text, leads to the image of the container and to the same key. */
  lemma {:induction false} SameWay(mods: Mods, g: Heap, root: Addr, h: Heap, copy: Addr, phi: map<Addr, Addr>, a: Addr,
      path: string)
    requires Isomorphic(g, root, h, copy, phi) && a in phi
    ensures Retrieve(mods, g, a, path).None? ==> Retrieve(mods, h, phi[a], path).None?
    ensures Retrieve(mods, g, a, path).Some? ==>
              var end := Retrieve(mods, g, a, path).value;
              end.collection in phi && Retrieve(mods, h, phi[a], path) == Some(Access(phi[end.collection], end.key))
    decreases |path|
  {
    var parsed := ParsePath(mods, path);
    hide ParsePath, Isomorphic;
    if parsed.Some? && parsed.value.rest != "" {
      IsomorphicReads(g, root, h, copy, phi, a, parsed.value.key);
      hide Get;
      var next := Step(g, a, parsed.value.key);
      if next.Some? {
        SameWay(mods, g, root, h, copy, phi, next.value, parsed.value.rest);
      }
    }
  }

  /** No path tells an isomorphic graph from the original: it reads the same scalar, or the image of the object. */
  lemma SameAtPaths(mods: Mods, g: Heap, root: Addr, h: Heap, copy: Addr, phi: map<Addr, Addr>, path: string)
    requires Isomorphic(g, root, h, copy, phi)
    ensures GetAt(mods, g, root, path).None? ==> GetAt(mods, h, copy, path).None?
    ensures GetAt(mods, g, root, path).Some? ==>
              var item := GetAt(mods, g, root, path).value;
              if item.Object? then item.ref in phi && GetAt(mods, h, copy, path) == Some(Object(phi[item.ref]))
              else GetAt(mods, h, copy, path) == Some(item)
  {
    assert root in phi && phi[root] == copy;
    hide Isomorphic;
    SameWay(mods, g, root, h, copy, phi, root, Limit(path));
    var end := AccessConstant(mods, g, root, path);
    if end.Some? {
      IsomorphicReads(g, root, h, copy, phi, end.value.collection, end.value.key);
    }
  }

  lemma NoKey(mods: Mods, path: string)
    requires path != "" ==> path[0] !in ".["
    ensures ParsePath(mods, path).None?
  {
  }

  lemma DeadEnd(mods: Mods, heap: Heap, a: Addr, path: string)
    requires var r := ParsePath(mods, path); r.Some? ==> r.value.rest != "" && ParsePath(mods, r.value.rest).None?
    ensures Retrieve(mods, heap, a, path).None?
  {
    hide ParsePath;
    var r := ParsePath(mods, path);
    if r.Some? && Step(heap, a, r.value.key).Some? {
      assert Retrieve(mods, heap, Step(heap, a, r.value.key).value, r.value.rest).None?;
    }
  }

  function WalkKeys(heap: Heap, a: Addr, ks: seq<Key>): Option<Addr>
  {
    if ks == [] then Some(a)
    else
      match WalkKeys(heap, a, ks[..|ks| - 1])
      case None => None
      case Some(b) => Step(heap, b, ks[|ks| - 1])
  }

  lemma Middle(ks: seq<Key>)
    requires |ks| > 1
    ensures ks[..|ks| - 1][1..] == ks[1..][..|ks| - 2]
    ensures ks[..|ks| - 1][0] == ks[0] && ks[1..][|ks| - 2] == ks[|ks| - 1]
  {
  }

  /** Walking from the front agrees with walking to the last key. */
  lemma {:induction false} WalkFront(heap: Heap, a: Addr, ks: seq<Key>)
    requires ks != []
    ensures WalkKeys(heap, a, ks) ==
            match Step(heap, a, ks[0]) case None => None case Some(b) => WalkKeys(heap, b, ks[1..])
    decreases |ks|
  {
    var n := |ks| - 1;
    if n == 0 {
      assert ks[..n] == [] && ks[1..] == [];
    } else {
      WalkFront(heap, a, ks[..n]);
      Middle(ks);
    }
  }

  function Concat(pieces: seq<string>): string
  {
    if pieces == [] then "" else Concat(pieces[..|pieces| - 1]) + pieces[|pieces| - 1]
  }

  lemma Associative(a: string, b: string, c: string)
    ensures (a + b) + c == a + (b + c)
  {
  }

  lemma {:induction false} ConcatFront(pieces: seq<string>)
    requires pieces != []
    ensures Concat(pieces) == pieces[0] + Concat(pieces[1..])
  {
    var n := |pieces| - 1;
    if n == 0 {
      assert pieces[..n] == [] && pieces[1..] == [];
    } else {
      ConcatFront(pieces[..n]);
      assert pieces[..n][1..] == pieces[1..][..n - 1];
      Associative(pieces[0], Concat(pieces[1..][..n - 1]), pieces[n]);
    }
  }

  lemma {:induction false} PrintIsConcat(mods: Mods, ks: seq<Key>)
    ensures PrintKeys(mods, ks) == Concat(seq(|ks|, i requires 0 <= i < |ks| => PrintKey(mods, ks[i])))
  {
    var pieces := seq(|ks|, i requires 0 <= i < |ks| => PrintKey(mods, ks[i]));
    if ks != [] {
      var front := ks[..|ks| - 1];
      PrintIsConcat(mods, front);
      assert pieces[..|ks| - 1] == seq(|front|, i requires 0 <= i < |front| => PrintKey(mods, front[i]));
    }
  }

  lemma PrintFront(mods: Mods, ks: seq<Key>)
    requires ks != []
    ensures PrintKeys(mods, ks) == PrintKey(mods, ks[0]) + PrintKeys(mods, ks[1..])
  {
    hide PrintKeys, PrintKey, Concat;
    var pieces := seq(|ks|, i requires 0 <= i < |ks| => PrintKey(mods, ks[i]));
    PrintIsConcat(mods, ks);
    PrintIsConcat(mods, ks[1..]);
    ConcatFront(pieces);
    assert pieces[1..] == seq(|ks| - 1, i requires 0 <= i < |ks| - 1 => PrintKey(mods, ks[1..][i]));
  }

  lemma PrintedBoundary(mods: Mods, ks: seq<Key>)
    ensures KeyBoundary(PrintKeys(mods, ks))
    ensures ks != [] ==> PrintKeys(mods, ks) != ""
  {
    if ks != [] {
      PrintFront(mods, ks);
    }
  }

  lemma {:induction false} RetrievePrinted(mods: Mods, heap: Heap, a: Addr, ks: seq<Key>, path: string)
    requires ks != [] && PathKeys(mods, ks) && path == PrintKeys(mods, ks)
    ensures Retrieve(mods, heap, a, path) ==
            match WalkKeys(heap, a, ks[..|ks| - 1]) case None => None case Some(b) => Some(Access(b, ks[|ks| - 1]))
    decreases |ks|
  {
    var tail := ks[1..];
    assert tail == [] ==> PrintKeys(mods, tail) == "";
    hide PrintKeys, PrintKey, ParsePath, Get;
    var rest := PrintKeys(mods, tail);
    assert ParsePath(mods, path) == Some(KeyAndRest(ks[0], rest)) && (tail != [] ==> rest != "") by {
      PrintFront(mods, ks);
      PrintedBoundary(mods, tail);
      ParsePrinted(mods, ks[0], rest);
    }
    if tail == [] {
      assert Retrieve(mods, heap, a, path) == Some(Access(a, ks[0]));
      assert ks[..0] == [];
    } else {
      WalkFront(heap, a, ks[..|ks| - 1]);
      Middle(ks);
      var next := Step(heap, a, ks[0]);
      assert Retrieve(mods, heap, a, path) ==
             match next case None => None case Some(b) => Retrieve(mods, heap, b, rest);
      if next.Some? {
        RetrievePrinted(mods, heap, next.value, tail, rest);
      }
    }
  }

  /** Walking the printed form of a key list arrives where following the keys one by one arrives. */
  lemma WalkPrinted(mods: Mods, heap: Heap, a: Addr, ks: seq<Key>, b: Addr)
    requires ks != [] && PathKeys(mods, ks)
    requires |PrintKeys(mods, ks)| <= 1024
    ensures GetAt(mods, heap, a, PrintKeys(mods, ks)) == Some(Object(b)) <==> WalkKeys(heap, a, ks) == Some(b)
  {
    RetrievePrinted(mods, heap, a, ks, PrintKeys(mods, ks));
  }

  /** One character too many: a key that fills the whole length leaves no room for its dot, and the path looks
      up the key without its last character. */
  lemma TooLong(mods: Mods, heap: Heap, a: Addr, name: string, b: Addr)
    requires a in heap && PathName(name) && |name| == 1024
    requires Get(heap[a], NameKey(name)) == Some(Object(b))
    ensures WalkKeys(heap, a, [NameKey(name)]) == Some(b)
    ensures GetAt(mods, heap, a, PrintKeys(mods, [NameKey(name)])) == Get(heap[a], NameKey(name[..1023]))
  {
    var ks, cut := [NameKey(name)], name[..PATH_LENGTH_MAX - 1];
    assert ks[..0] == [] && PrintKeys(mods, ks) == "." + name;
    assert Limit("." + name) == "." + cut + "";
    ParsePrintedName(mods, cut, "");
    hide ParsePath, Get, PrintKeys;
    assert Retrieve(mods, heap, a, "." + cut + "") == Some(Access(a, NameKey(cut)));
  }

  // ------------------------------------------------------------------ form keys with a bracket

  /** A form key whose string has a bracket, and then something else than '.' or '['. */
  predicate Bracketed(mods: Mods, k: Key)
  {
    k.FormKey? &&
      match FormToString(mods, k.form)
      case None => false
      case Some(s) => ']' in s && AfterBracket(s, "")[0] !in ".["
  }

  lemma DeadAtBracket(mods: Mods, heap: Heap, a: Addr, k: Key, rest: string)
    requires Bracketed(mods, k)
    ensures Retrieve(mods, heap, a, PrintKey(mods, k) + rest).None?
  {
    var s := FormToString(mods, k.form).value;
    assert PrintKey(mods, k) + rest == "[" + s + "]" + rest;
    assert AfterBracket(s, rest)[0] == AfterBracket(s, "")[0];
    hide ParsePath, FormToString, AfterBracket, PrintKey;
    CutAtBracket(mods, s, rest);
    NoKey(mods, AfterBracket(s, rest));
    DeadEnd(mods, heap, a, "[" + s + "]" + rest);
  }

  /** A path through such a key leads nowhere, whatever the graph is. */
  lemma {:induction false} BracketLosesWay(mods: Mods, heap: Heap, a: Addr, ks: seq<Key>, i: nat)
    requires i < |ks| && PathKeys(mods, ks[..i]) && Bracketed(mods, ks[i])
    ensures Retrieve(mods, heap, a, PrintKeys(mods, ks)).None?
    ensures |PrintKeys(mods, ks)| <= PATH_LENGTH_MAX ==> GetAt(mods, heap, a, PrintKeys(mods, ks)).None?
    decreases |ks|
  {
    hide PrintKeys, PrintKey, ParsePath, Bracketed, PathKey, Step;
    var tail := ks[1..];
    PrintFront(mods, ks);
    if i == 0 {
      DeadAtBracket(mods, heap, a, ks[0], PrintKeys(mods, tail));
    } else {
      assert PathKey(mods, ks[..i][0]) && tail[i - 1] == ks[i] && tail[..i - 1] == ks[..i][1..];
      PrintedBoundary(mods, tail);
      ParseIfPathKey(mods, ks[0], PrintKeys(mods, tail));
      forall b ensures Retrieve(mods, heap, b, PrintKeys(mods, tail)).None? {
        BracketLosesWay(mods, heap, b, tail, i - 1);
      }
    }
  }

  lemma ParseIfPathKey(mods: Mods, k: Key, rest: string)
    requires KeyBoundary(rest) && PathKey(mods, k)
    ensures ParsePath(mods, PrintKey(mods, k) + rest) == Some(KeyAndRest(k, rest))
  {
    hide ParsePath, PrintKey;
    ParsePrinted(mods, k, rest);
  }

  /** Such a plugin: the forms of "[x] a.esp" have strings that decode, but no path goes through them. */
  lemma BracketInName(heap: Heap, a: Addr)
    ensures
      var mods := Mods(map[1 := "[x] a.esp"], map[], map["[x] a.esp" := Regular(1)]);
      var form: FormId := 0x100_0004;
      && NameLeadsBack(mods, form) && !PathKey(mods, FormKey(form))
      && GetAt(mods, heap, a, PrintKeys(mods, [FormKey(form)])).None?
  {
    var mods := Mods(map[1 := "[x] a.esp"], map[], map["[x] a.esp" := Regular(1)]);
    var form: FormId := 0x100_0004;
    var name := "[x] a.esp";
    assert mods.NameOf(PluginOf(form)) == Some(name) && LocalId(form) == 4;
    assert name[2] == ']' && name[3] == ' ' && ']' !in name[..2];
    assert NameLeadsBack(mods, form);
    hide Mods.NameOf, NameLeadsBack, GetAt, PathKey;
    NamedWithBracket(mods, heap, a, form, name, 2);
  }

  lemma NamedWithBracket(mods: Mods, heap: Heap, a: Addr, form: FormId, name: string, end: nat)
    requires IsStatic(form) && mods.NameOf(PluginOf(form)) == Some(name) && LocalId(form) < 16
    requires end + 1 < |name| < 1000 && ']' !in name[..end] && name[end] == ']' && name[end + 1] !in ".["
    ensures !PathKey(mods, FormKey(form)) && GetAt(mods, heap, a, PrintKeys(mods, [FormKey(form)])).None?
  {
    var before := PREFIX + name[..end];
    var after := name[end + 1..] + "|0x" + Digits(LocalId(form), 16);
    var s := before + [']'] + after;
    assert name == name[..end] + [']'] + name[end + 1..];
    assert s == PREFIX + name + "|0x" + Digits(LocalId(form), 16);
    IndexOfAfter(before, ']', after);
    hide ParsePath, FormToString, IndexOf, GetAt, Digits;
    assert s[|before|] == ']' && AfterBracket(s, "")[0] == name[end + 1];
    var ks := [FormKey(form)];
    assert ks[..0] == [] && PrintKeys(mods, ks) == "[" + s + "]";
    hide PrintKeys;
    BracketLosesWay(mods, heap, a, ks, 0);
  }

  /** What a printed form key with a bracket parses to: the form, if its string decodes, and the text behind the
      bracket as what is left of the path. */
  lemma ParseBracket(mods: Mods, form: FormId, s: string, rest: string)
    requires FormToString(mods, form) == Some(s) && ']' in s && (HasBar(mods, form) ==> ResolvesByName(mods))
    ensures ParsePath(mods, "[" + s + "]" + rest) == Some(KeyAndRest(FormKey(form), AfterBracket(s, rest)))
       <==> NameLeadsBack(mods, form)
  {
    hide ParsePath, FormToString, StringToForm, IndexOf, StartsWith, IsFormString, NameLeadsBack;
    FormText(mods, form, s, rest);
    BracketFound(s, rest);
    assert ("[" + s + "]" + rest)[1..] == s + "]" + rest;
    BracketRule(mods, "[" + s + "]" + rest, IndexOf(s, ']'));
  }

  lemma BracketRule(mods: Mods, path: string, end: nat)
    requires StartsWith(path, "[") && |path| >= 3 && IsFormString(path[1..])
    requires IndexOf(path[1..], ']') == end < |path[1..]|
    ensures ParsePath(mods, path) ==
            match StringToForm(mods, path[1..])
            case None => None
            case Some(form) => Some(KeyAndRest(FormKey(form), path[1..][end + 1..]))
  {
    assert path[0] == '[' && path[1] == path[1..][0] == path[1..][..|PREFIX|][0] == '_';
    assert MapRule(path) == None;
    hide Stoi, StringToForm, IsFormString, StartsWith;
  }

  /** A form key whose string has a bracket and then a name of its own, as that of "Mod [v2].esp". */
  predicate Dotted(mods: Mods, k: Key)
  {
    k.FormKey? && NameLeadsBack(mods, k.form) &&
      match FormToString(mods, k.form)
      case None => false
      case Some(s) => ']' in s && AfterBracket(s, "")[0] == '.' && PathName(AfterBracket(s, "")[1..])
  }

  /** The keys that a printed key is read as. */
  function ReadAs(mods: Mods, k: Key): (ks: seq<Key>)
    ensures ks != [] && ks[0] == k
  {
    if Dotted(mods, k) then [k, NameKey(AfterBracket(FormToString(mods, k.form).value, "")[1..])] else [k]
  }

  function ReadKeys(mods: Mods, ks: seq<Key>): (r: seq<Key>)
    ensures |r| >= |ks|
  {
    if ks == [] then [] else ReadAs(mods, ks[0]) + ReadKeys(mods, ks[1..])
  }

  function AccessBy(heap: Heap, a: Addr, ks: seq<Key>): Option<Access>
    requires ks != []
  {
    match WalkKeys(heap, a, ks[..|ks| - 1])
    case None => None
    case Some(b) => Some(Access(b, ks[|ks| - 1]))
  }

  lemma AccessFront(heap: Heap, a: Addr, k: Key, ks: seq<Key>)
    ensures AccessBy(heap, a, [k] + ks) ==
            if ks == [] then Some(Access(a, k))
            else match Step(heap, a, k) case None => None case Some(b) => AccessBy(heap, b, ks)
  {
    var all := [k] + ks;
    hide Step;
    if ks == [] {
      assert all[..0] == [];
    } else {
      WalkFront(heap, a, all[..|ks|]);
      assert all[..|ks|][1..] == ks[..|ks| - 1];
    }
  }

  lemma RetrieveStep(mods: Mods, heap: Heap, a: Addr, path: string, k: Key, rest: string)
    requires ParsePath(mods, path) == Some(KeyAndRest(k, rest))
    ensures Retrieve(mods, heap, a, path) ==
            if rest == "" then Some(Access(a, k))
            else match Step(heap, a, k) case None => None case Some(b) => Retrieve(mods, heap, b, rest)
  {
    hide ParsePath, Step;
  }

  lemma ParseDotted(mods: Mods, k: Key, name: string, rest: string)
    requires Dotted(mods, k) && ReadAs(mods, k) == [k, NameKey(name)] && KeyBoundary(rest)
    ensures ParsePath(mods, PrintKey(mods, k) + rest) == Some(KeyAndRest(k, "." + name + rest))
    ensures ParsePath(mods, "." + name + rest) == Some(KeyAndRest(NameKey(name), rest))
  {
    var s := FormToString(mods, k.form).value;
    assert PrintKey(mods, k) + rest == "[" + s + "]" + rest;
    assert AfterBracket(s, "") == "." + name && AfterBracket(s, rest) == AfterBracket(s, "") + rest;
    assert !HasBar(mods, k.form);
    hide ParsePath, FormToString, AfterBracket, PrintKey, NameLeadsBack;
    ParseBracket(mods, k.form, s, rest);
    ParsePrintedName(mods, name, rest);
  }

  /** A printed path through such keys is walked as the keys it is read as. */
  lemma {:induction false} RetrieveRead(mods: Mods, heap: Heap, a: Addr, ks: seq<Key>)
    requires ks != [] && forall i | 0 <= i < |ks| :: PathKey(mods, ks[i]) || Dotted(mods, ks[i])
    ensures Retrieve(mods, heap, a, PrintKeys(mods, ks)) == AccessBy(heap, a, ReadKeys(mods, ks))
    decreases |ks|
  {
    var k, tail := ks[0], ks[1..];
    var rest, path, read := PrintKeys(mods, tail), PrintKeys(mods, ks), ReadKeys(mods, tail);
    assert tail == [] ==> rest == "" && read == [];
    PrintFront(mods, ks);
    PrintedBoundary(mods, tail);
    assert forall i | 0 <= i < |tail| :: tail[i] == ks[i + 1];
    hide PrintKeys, PrintKey, ParsePath, Step, AccessBy, Retrieve, PathKey, AfterBracket;
    forall b | tail != [] ensures Retrieve(mods, heap, b, rest) == AccessBy(heap, b, read) {
      RetrieveRead(mods, heap, b, tail);
    }
    if Dotted(mods, k) {
      var name := ReadAs(mods, k)[1].name;
      hide Dotted;
      ReadDotted(mods, heap, a, k, name, tail, rest, read);
    } else {
      hide Dotted;
      ParseIfPathKey(mods, k, rest);
      RetrieveStep(mods, heap, a, path, k, rest);
      AccessFront(heap, a, k, read);
    }
  }

  lemma ReadDotted(mods: Mods, heap: Heap, a: Addr, k: Key, name: string, tail: seq<Key>, rest: string, read: seq<Key>)
    requires Dotted(mods, k) && ReadAs(mods, k) == [k, NameKey(name)] && KeyBoundary(rest)
    requires tail == [] ==> rest == "" && read == []
    requires tail != [] ==>
               rest != "" && read != [] && forall b :: Retrieve(mods, heap, b, rest) == AccessBy(heap, b, read)
    ensures Retrieve(mods, heap, a, PrintKey(mods, k) + rest) == AccessBy(heap, a, ReadAs(mods, k) + read)
  {
    hide Dotted, ReadAs, PrintKey, ParsePath, Step, AccessBy, Retrieve;
    ParseDotted(mods, k, name, rest);
    RetrieveStep(mods, heap, a, PrintKey(mods, k) + rest, k, "." + name + rest);
    AccessFront(heap, a, k, [NameKey(name)] + read);
    assert [k] + ([NameKey(name)] + read) == [k, NameKey(name)] + read;
    forall b ensures Retrieve(mods, heap, b, "." + name + rest) == AccessBy(heap, b, [NameKey(name)] + read) {
      RetrieveStep(mods, heap, b, "." + name + rest, NameKey(name), rest);
      AccessFront(heap, b, NameKey(name), read);
    }
  }

  /** So it leads where these keys lead. */
  lemma WalkRead(mods: Mods, heap: Heap, a: Addr, ks: seq<Key>, b: Addr)
    requires ks != [] && forall i | 0 <= i < |ks| :: PathKey(mods, ks[i]) || Dotted(mods, ks[i])
    requires |PrintKeys(mods, ks)| <= PATH_LENGTH_MAX
    ensures GetAt(mods, heap, a, PrintKeys(mods, ks)) == Some(Object(b))
       <==> WalkKeys(heap, a, ReadKeys(mods, ks)) == Some(b)
  {
    hide PathKey, Dotted, PrintKeys, Retrieve;
    RetrieveRead(mods, heap, a, ks);
  }

  /** Such are the forms of a plugin that is named like "Mod [v2].esp": form 0x14 of it is read as that form
      followed by the name "esp|0x14]". */
  lemma DottedInName(mods: Mods, form: FormId, front: string, last: string)
    requires IsStatic(form) && mods.NameOf(PluginOf(form)) == Some(front + "]." + last) && NameLeadsBack(mods, form)
    requires ']' !in front && '.' !in last && '[' !in last
    ensures var k, name := FormKey(form), last + "|0x" + Digits(LocalId(form), 16) + "]";
            Dotted(mods, k) && !PathKey(mods, k) && ReadAs(mods, k) == [k, NameKey(name)]
  {
    var before, name := PREFIX + front, last + "|0x" + Digits(LocalId(form), 16);
    DottedString(mods, form, front, last);
    DottedTail(last, LocalId(form));
    assert ']' !in PREFIX;
    hide FormToString, NameLeadsBack, LocalId, AfterBracket, Digits;
    AfterFirst(before, name);
  }

  lemma DottedString(mods: Mods, form: FormId, front: string, last: string)
    requires IsStatic(form) && mods.NameOf(PluginOf(form)) == Some(front + "]." + last)
    ensures FormToString(mods, form)
         == Some(PREFIX + front + [']'] + ("." + (last + "|0x" + Digits(LocalId(form), 16))))
  {
    hide Digits, LocalId, PluginOf;
    assert PREFIX + front + [']'] + ("." + (last + "|0x" + Digits(LocalId(form), 16)))
        == PREFIX + (front + "]." + last) + "|0x" + Digits(LocalId(form), 16);
  }

  lemma DottedTail(last: string, n: nat)
    requires '.' !in last && '[' !in last
    ensures PathName(last + "|0x" + Digits(n, 16) + "]")
  {
    var digits := Digits(n, 16);
    hide Digits;
    assert '.' !in digits && '[' !in digits;
  }

  lemma AfterFirst(before: string, name: string)
    requires ']' !in before
    ensures ']' in before + [']'] + ("." + name)
    ensures AfterBracket(before + [']'] + ("." + name), "") == "." + (name + "]")
    ensures ("." + (name + "]"))[1..] == name + "]"
  {
    var s := before + [']'] + ("." + name);
    IndexOfAfter(before, ']', "." + name);
    assert s[|before|] == ']' && s[|before| + 1..] == "." + name;
  }
}
