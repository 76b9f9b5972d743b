/** Form ids and their "__formData|<mod>|0x<local>" strings. */
module FormCodec {
  import opened Wrappers
  import opened Numerals

  type FormId = n: nat | n <= UINT_MAX
  // 0xfe marks light plugins and 0xff dynamic forms, so no regular plugin has either index.
  type RegularIndex = i: nat | i < 0xfe
  type LightIndex = i: nat | i < 0x1000

  datatype Plugin = Regular(index: RegularIndex) | Light(light: LightIndex)

  /** The engine's load order: names by index, and the plugin a name resolves to. */
  datatype Mods = Mods(regular: map<RegularIndex, string>,
                       light: map<LightIndex, string>,
                       byName: map<string, Plugin>)
  {
    function NameOf(p: Plugin): Option<string>
    {
      match p
      case Regular(i) => if i in regular then Some(regular[i]) else None
      case Light(i) => if i in light then Some(light[i]) else None
    }
  }

  const PREFIX := "__formData|"

  function LowerChar(c: char): char
  {
    if 'A' <= c <= 'Z' then (c as int + 32) as char else c
  }

  function Lower(s: string): string
  {
    seq(|s|, i requires 0 <= i < |s| => LowerChar(s[i]))
  }

  predicate StartsWith(s: string, prefix: string)
  {
    |prefix| <= |s| && s[..|prefix|] == prefix
  }

  predicate IsFormString(s: string)
  {
    StartsWith(s, PREFIX)
  }

  predicate IsStatic(n: FormId)
  {
    n / 0x100_0000 != 0xff
  }

  predicate IsLight(n: FormId)
  {
    n / 0x100_0000 == 0xfe
  }

  function PluginOf(n: FormId): Plugin
    requires IsStatic(n)
  {
    if IsLight(n) then Light(n / 0x1000 % 0x1000) else Regular(n / 0x100_0000)
  }

  function LocalId(n: FormId): nat
  {
    if IsLight(n) then n % 0x1000 else n % 0x100_0000
  }

  function FormToString(mods: Mods, n: FormId): Option<string>
  {
    if IsStatic(n) then
      match mods.NameOf(PluginOf(n))
      case None => None
      case Some(mod) => Some(PREFIX + mod + "|0x" + Digits(LocalId(n), 16))
    else
      Some(PREFIX + "|0x" + Digits(n, 16))
  }

  /** The first position of c in s, or |s|. */
  function IndexOf(s: string, c: char): (i: nat)
    ensures i <= |s| && c !in s[..i]
    ensures i < |s| ==> s[i] == c
  {
    if s == [] || s[0] == c then 0 else 1 + IndexOf(s[1..], c)
  }

  function FormFromFile(mods: Mods, file: string, form: FormId): Option<FormId>
  {
    if file == "" then Some(0xff00_0000 + form % 0x100_0000)
    else if file !in mods.byName then None
    else
      match mods.byName[file]
      case Regular(i) => Some(i * 0x100_0000 + form % 0x100_0000)
      case Light(i) => Some(0xfe00_0000 + i * 0x1000 + form % 0x1000)
  }

  function StringToForm(mods: Mods, s: string): Option<FormId>
  {
    if !IsFormString(s) then None
    else
      var str := s[|PREFIX|..];
      var bar := IndexOf(str, '|');
      if bar == |str| then None
      else
        match Stoul(str[bar + 1..])
        case None => None
        case Some(form) => FormFromFile(mods, str[..bar], form)
  }

  lemma {:induction false} IndexOfAfter(a: string, c: char, rest: string)
    requires c !in a
    ensures IndexOf(a + [c] + rest, c) == |a|
  {
    if a != [] {
      assert (a + [c] + rest)[1..] == a[1..] + [c] + rest;
      IndexOfAfter(a[1..], c, rest);
    }
  }

  lemma ReadBack(mods: Mods, mod: string, local: FormId, rest: string)
    requires '|' !in mod
    requires rest == [] || rest[0] == ']'
    ensures StringToForm(mods, PREFIX + mod + "|0x" + Digits(local, 16) + rest) == FormFromFile(mods, mod, local)
  {
    var number := "0x" + Digits(local, 16) + rest;
    var s := PREFIX + mod + "|0x" + Digits(local, 16) + rest;
    var str := mod + ['|'] + number;
    assert s == PREFIX + str;
    assert s[..|PREFIX|] == PREFIX && s[|PREFIX|..] == str;
    IndexOfAfter(mod, '|', number);
    assert str[..|mod|] == mod && str[|mod| + 1..] == number;
    ReadHex(local, rest);
  }

  /** A form id whose mod name survives in the string and leads back to the mod that owns it. */
  predicate NameLeadsBack(mods: Mods, n: FormId)
  {
    IsStatic(n) ==>
      match mods.NameOf(PluginOf(n))
      case None => false
      case Some(mod) => mod != "" && '|' !in mod && mod in mods.byName && mods.byName[mod] == PluginOf(n)
  }

  predicate HasBar(mods: Mods, n: FormId)
  {
    IsStatic(n) && mods.NameOf(PluginOf(n)).Some? && '|' in mods.NameOf(PluginOf(n)).value
  }

  /** A name resolves to a plugin that carries this name, up to case. */
  ghost predicate ResolvesByName(mods: Mods)
  {
    forall file | file in mods.byName ::
      mods.NameOf(mods.byName[file]).Some? && Lower(mods.NameOf(mods.byName[file]).value) == Lower(file)
  }

  /** The plugin that a form id names, put together with the local id, is the form id, and nothing else is. */
  lemma Recompose(mods: Mods, mod: string, n: FormId)
    requires IsStatic(n)
    ensures FormFromFile(mods, mod, LocalId(n)) == Some(n)
       <==> mod != "" && mod in mods.byName && mods.byName[mod] == PluginOf(n)
  {
    var local: FormId := LocalId(n);
    if IsLight(n) {
      assert n == 0xfe00_0000 + n / 0x1000 % 0x1000 * 0x1000 + n % 0x1000;
    } else {
      assert n == n / 0x100_0000 * 0x100_0000 + n % 0x100_0000;
    }
    if mod != "" && mod in mods.byName {
      match mods.byName[mod]
      case Regular(i) => assert (i * 0x100_0000 + local % 0x100_0000) / 0x100_0000 == i;
      case Light(i) =>
        var v := 0xfe00_0000 + i * 0x1000 + local % 0x1000;
        assert v / 0x100_0000 == 0xfe && v / 0x1000 % 0x1000 == i;
    }
  }

  lemma DynamicForm(mods: Mods, n: FormId)
    requires !IsStatic(n)
    ensures FormFromFile(mods, "", n) == Some(n)
  {
  }

  lemma FormShape(mods: Mods, n: FormId, s: string)
    requires FormToString(mods, n) == Some(s)
    ensures IsFormString(s) && |s| > |PREFIX|
    ensures ']' in s <==> IsStatic(n) && ']' in mods.NameOf(PluginOf(n)).value
  {
    hide IsLight, PluginOf, LocalId;
    if !IsStatic(n) {
      assert s == PREFIX + "|0x" + Digits(n, 16);
    } else {
      assert s == PREFIX + mods.NameOf(PluginOf(n)).value + "|0x" + Digits(LocalId(n), 16);
    }
  }

  /** The form that a file and any number make belongs to the plugin the file resolves to. */
  lemma MadeForm(mods: Mods, file: string, form: FormId)
    requires FormFromFile(mods, file, form).Some?
    ensures var n := FormFromFile(mods, file, form).value;
            if file == "" then !IsStatic(n)
            else file in mods.byName && IsStatic(n) && PluginOf(n) == mods.byName[file]
  {
    if file == "" {
      assert (0xff00_0000 + form % 0x100_0000) / 0x100_0000 == 0xff;
    } else {
      match mods.byName[file]
      case Regular(i) => assert (i * 0x100_0000 + form % 0x100_0000) / 0x100_0000 == i;
      case Light(i) =>
        var v := 0xfe00_0000 + i * 0x1000 + form % 0x1000;
        assert v / 0x100_0000 == 0xfe && v / 0x1000 % 0x1000 == i;
    }
  }

  /** A name with a bar is cut at the bar, and what is left of it is not the name of the same mod. */
  lemma BarCuts(mods: Mods, n: FormId, s: string, rest: string)
    requires FormToString(mods, n) == Some(s) && HasBar(mods, n) && ResolvesByName(mods)
    ensures StringToForm(mods, s + rest) != Some(n)
  {
    hide Digits, IsLight, PluginOf, LocalId, FormFromFile, Stoul;
    var mod := mods.NameOf(PluginOf(n)).value;
    var bar := IndexOf(mod, '|');
    var file, after := mod[..bar], mod[bar + 1..] + "|0x" + Digits(LocalId(n), 16) + rest;
    var str := file + ['|'] + after;
    assert s + rest == PREFIX + str;
    assert (s + rest)[..|PREFIX|] == PREFIX && (s + rest)[|PREFIX|..] == str;
    IndexOfAfter(file, '|', after);
    assert str[..bar] == file && str[bar + 1..] == after;
    if Stoul(after).Some? && FormFromFile(mods, file, Stoul(after).value).Some? {
      MadeForm(mods, file, Stoul(after).value);
      assert file in mods.byName && mods.byName[file] == PluginOf(n) ==> |Lower(mod)| == |Lower(file)|;
    }
  }

  /** Decoding undoes encoding exactly for the ids whose mod name is neither empty nor has a bar, and resolves
      to that mod. */
  lemma RoundTrip(mods: Mods, n: FormId, s: string, rest: string)
    requires FormToString(mods, n) == Some(s) && (HasBar(mods, n) ==> ResolvesByName(mods))
    requires rest == [] || rest[0] == ']'
    ensures StringToForm(mods, s + rest) == Some(n) <==> NameLeadsBack(mods, n)
  {
    hide StringToForm, FormFromFile, Digits, IsLight, PluginOf;
    if HasBar(mods, n) {
      BarCuts(mods, n, s, rest);
    } else if IsStatic(n) {
      var mod := mods.NameOf(PluginOf(n)).value;
      ReadBack(mods, mod, LocalId(n), rest);
      Recompose(mods, mod, n);
    } else {
      ReadBack(mods, "", n, rest);
      DynamicForm(mods, n);
      assert PREFIX + "" == PREFIX;
    }
  }

  /** Every name of the load order is non-empty, has no bar, and resolves to the plugin that carries it. */
  ghost predicate NamesIdentify(mods: Mods)
  {
    forall p: Plugin | mods.NameOf(p).Some? ::
      var m := mods.NameOf(p).value;
      m != "" && '|' !in m && m in mods.byName && mods.byName[m] == p
  }

  /** With such a load order every id that encodes decodes to itself: dynamic, regular and light. */
  lemma TableRoundTrip(mods: Mods, n: FormId, s: string)
    requires NamesIdentify(mods) && FormToString(mods, n) == Some(s)
    ensures StringToForm(mods, s) == Some(n)
  {
    hide StringToForm, Digits, IsLight, PluginOf, LocalId;
    RoundTrip(mods, n, s, []);
    assert s + [] == s;
  }

  /** Outside VR the names of light plugins are read from the list of all loaded ones. When the plugin at the
      same index there is found by its name, a light form is taken for one of that plugin. */
  lemma LightTakenForRegular(mods: Mods, n: FormId, s: string, i: RegularIndex)
    requires IsStatic(n) && IsLight(n) && PluginOf(n) == Light(i) && FormToString(mods, n) == Some(s)
    requires mods.NameOf(Light(i)) == mods.NameOf(Regular(i))
    requires var mod := mods.NameOf(Regular(i)).value;
             mod != "" && '|' !in mod && mod in mods.byName && mods.byName[mod] == Regular(i)
    ensures StringToForm(mods, s) == Some(i * 0x100_0000 + n % 0x1000) && StringToForm(mods, s) != Some(n)
  {
    var mod, local := mods.NameOf(Regular(i)).value, LocalId(n);
    assert local == n % 0x1000 < 0x1000;
    hide StringToForm, FormFromFile, Digits, PluginOf, LocalId;
    ReadBack(mods, mod, local, []);
    assert s + [] == s;
    SmallLocal(mods, mod, i, local);
  }

  lemma SmallLocal(mods: Mods, mod: string, i: RegularIndex, local: nat)
    requires mod != "" && mod in mods.byName && mods.byName[mod] == Regular(i) && local < 0x1000
    ensures FormFromFile(mods, mod, local) == Some(i * 0x100_0000 + local)
    ensures !IsLight(i * 0x100_0000 + local)
  {
  }

  /** Of two plugins that the engine's table gives the same name, only one has forms that survive. */
  lemma OneNameOnePlugin(mods: Mods, m: FormId, n: FormId, s: string, t: string)
    requires FormToString(mods, m) == Some(s) && FormToString(mods, n) == Some(t)
    requires IsStatic(m) && IsStatic(n) && PluginOf(m) != PluginOf(n)
    requires mods.NameOf(PluginOf(m)) == mods.NameOf(PluginOf(n)) && !HasBar(mods, m)
    ensures !(StringToForm(mods, s) == Some(m) && StringToForm(mods, t) == Some(n))
  {
    hide StringToForm, FormToString;
    RoundTrip(mods, m, s, []);
    RoundTrip(mods, n, t, []);
    assert s + [] == s && t + [] == t;
  }

  // ------------------------------------------------------------------ the strings and ids themselves

  /** Ids from 0xff000000 on are dynamic and printed whole; ids from 0xfe000000 on belong to the light plugin of
      their next 12 bits, which keeps 12; all others to the regular plugin of their first 8 bits, which keeps 24. */
  lemma StringOfForm(mods: Mods, n: FormId)
    ensures FormToString(mods, n) ==
            if n >= 0xff00_0000 then Some("__formData||0x" + Digits(n, 16))
            else
              var (name, kept) :=
                if n >= 0xfe00_0000 then (mods.NameOf(Light((n - 0xfe00_0000) / 0x1000)), n % 0x1000)
                else (mods.NameOf(Regular(n / 0x100_0000)), n % 0x100_0000);
              match name case None => None case Some(mod) => Some("__formData|" + mod + "|0x" + Digits(kept, 16))
  {
    assert PREFIX + "|0x" == "__formData||0x";
    if 0xfe00_0000 <= n < 0xff00_0000 {
      assert n / 0x100_0000 == 0xfe && n / 0x1000 % 0x1000 == (n - 0xfe00_0000) / 0x1000;
    }
    hide Digits;
  }

  /** A string is cut at its first bar; the text behind it is read as a number, of which as many bits are kept. */
  lemma FormOfString(mods: Mods, mod: string, number: string)
    requires '|' !in mod
    ensures StringToForm(mods, "__formData|" + mod + "|" + number) ==
            match Stoul(number)
            case None => None
            case Some(form) =>
              if mod == "" then Some(0xff00_0000 + form % 0x100_0000)
              else if mod !in mods.byName then None
              else if mods.byName[mod].Regular? then Some(mods.byName[mod].index * 0x100_0000 + form % 0x100_0000)
              else Some(0xfe00_0000 + mods.byName[mod].light * 0x1000 + form % 0x1000)
  {
    var s, str := "__formData|" + mod + "|" + number, mod + ['|'] + number;
    assert s == PREFIX + str;
    assert s[..|PREFIX|] == PREFIX && s[|PREFIX|..] == str;
    IndexOfAfter(mod, '|', number);
    assert str[..|mod|] == mod && str[|mod| + 1..] == number;
    hide Stoul;
  }

  /** Without the prefix, or without a bar behind it, there is no form. */
  lemma NoForm(mods: Mods, s: string)
    ensures |s| < 11 || s[..11] != "__formData|" ==> StringToForm(mods, s).None?
    ensures '|' !in s ==> StringToForm(mods, "__formData|" + s).None?
  {
    var t := "__formData|" + s;
    assert t[..|PREFIX|] == PREFIX && t[|PREFIX|..] == s;
    hide Stoul, FormFromFile;
  }
}
