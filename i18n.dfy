/** chromeExtension/js/i18n.js: the current language and `t(key, params)`,
    the lookup of a dotted key in the locale tables with `{name}`
    placeholders filled in. The locale tables (js/locales.js) are the
    translator's `locales` field; the DOM refreshes (`updateDOM`,
    `updateToggles`) are not modelled. */
module I18n {
  import opened Common

  /** A locale entry: a string or a table of further entries. */
  datatype Value = Str(s: string) | Obj(fields: map<string, Value>)

  /** JavaScript truthiness of a looked-up value: `undefined` (None) and the
      empty string are falsy, every object is truthy. */
  predicate Truthy(v: Option<Value>) {
    v.Some? && (v.value.Str? ==> v.value.s != "")
  }

  /** `value?.[k]`: a field of a table; nothing below a string or below
      `undefined`. */
  function Child(v: Option<Value>, k: string): (r: Option<Value>)
    ensures r.Some? <==> v.Some? && v.value.Obj? && k in v.value.fields
    ensures r.Some? ==> r.value == v.value.fields[k]
  {
    if v.Some? && v.value.Obj? && k in v.value.fields then Some(v.value.fields[k]) else None
  }

  /** `s.split(sep)`: the pieces between occurrences of `sep`, always at
      least one (the empty string splits into `[""]`). */
  function Split(s: string, sep: char): (r: seq<string>)
    ensures |r| >= 1
    ensures forall i :: 0 <= i < |r| ==> sep !in r[i]
  {
    if s == [] then [""]
    else
      var rest := Split(s[1..], sep);
      if s[0] == sep then [""] + rest else [[s[0]] + rest[0]] + rest[1..]
  }

  /** Joining the pieces with the separator gives the key back. */
  lemma {:induction false} SplitJoin(s: string, sep: char)
    ensures Join(Split(s, sep), [sep]) == s
  {
    if s != [] {
      var rest := Split(s[1..], sep);
      SplitJoin(s[1..], sep);
      if s[0] == sep {
        JoinCons("", rest, [sep]);
      } else {
        JoinHead(s[0], rest, [sep]);
      }
    }
  }

  lemma JoinCons(head: string, rest: seq<string>, sep: string)
    requires |rest| >= 1
    ensures Join([head] + rest, sep) == head + sep + Join(rest, sep)
  {
    assert ([head] + rest)[1..] == rest;
  }

  lemma JoinHead(c: char, rest: seq<string>, sep: string)
    requires |rest| >= 1
    ensures Join([[c] + rest[0]] + rest[1..], sep) == [c] + Join(rest, sep)
  {
    var parts := [[c] + rest[0]] + rest[1..];
    assert parts[1..] == rest[1..];
    if |rest| > 1 {
      assert Join(rest, sep) == rest[0] + sep + Join(rest[1..], sep);
    }
  }

  /** The other direction: pieces without the separator split back into
      themselves. */
  lemma {:induction false} JoinSplit(parts: seq<string>, sep: char)
    requires |parts| >= 1
    requires forall i :: 0 <= i < |parts| ==> sep !in parts[i]
    ensures Split(Join(parts, [sep]), sep) == parts
  {
    if |parts| == 1 {
      PieceSplit(parts[0], [], sep);
      assert parts[0] + [] == parts[0] && parts[0] + "" == parts[0];
      assert Split([], sep) == [""];
      assert parts == [parts[0]];
    } else {
      JoinSplit(parts[1..], sep);
      var tail := Join(parts[1..], [sep]);
      assert Join(parts, [sep]) == parts[0] + ([sep] + tail);
      PieceSplit(parts[0], [sep] + tail, sep);
      assert ([sep] + tail)[1..] == tail;
      assert Split([sep] + tail, sep) == [""] + parts[1..];
      assert parts[0] + "" == parts[0];
      assert parts == [parts[0]] + parts[1..];
    }
  }

  /** Splitting a separator-free piece followed by `rest`: the piece heads
      the first part of `rest`'s split. */
  lemma {:induction false} PieceSplit(piece: string, rest: string, sep: char)
    requires sep !in piece
    ensures Split(piece + rest, sep) == [piece + Split(rest, sep)[0]] + Split(rest, sep)[1..]
  {
    if piece == [] {
      assert piece + rest == rest;
      var r := Split(rest, sep);
      assert piece + r[0] == r[0];
      assert [r[0]] + r[1..] == r;
    } else {
      assert (piece + rest)[1..] == piece[1..] + rest;
      PieceSplit(piece[1..], rest, sep);
      assert [piece[0]] + (piece[1..] + Split(rest, sep)[0]) == piece + Split(rest, sep)[0];
    }
  }

  /** What the lookup loop of `t` ends on: the entry reached by following
      `keys`, or None when some step reaches a falsy value (where `t`
      returns the key itself). */
  function Lookup(v: Option<Value>, keys: seq<string>): (r: Option<Value>)
    ensures keys == [] ==> r == v
    ensures keys != [] && r.Some? ==> Truthy(r)
    decreases |keys|
  {
    if keys == [] then v
    else
      var next := Child(v, keys[0]);
      if !Truthy(next) then None else Lookup(next, keys[1..])
  }

  /** Following a longer key is following its first segments, then the
      rest from where they led. */
  lemma {:induction false} LookupAppend(v: Option<Value>, a: seq<string>, b: seq<string>)
    requires a != []
    ensures Lookup(v, a + b) == if Lookup(v, a).None? then None else Lookup(Lookup(v, a), b)
    decreases |a|
  {
    assert (a + b)[0] == a[0];
    assert (a + b)[1..] == a[1..] + b;
    var next := Child(v, a[0]);
    if Truthy(next) && a[1..] != [] {
      LookupAppend(next, a[1..], b);
    }
  }

  /** `pat` occurs in `s` at position `j`. */
  predicate OccursAt(s: string, pat: string, j: nat) {
    j + |pat| <= |s| && s[j..j + |pat|] == pat
  }

  /** `s.indexOf(pat, from)`: the first position at or after `from`
      where `pat` occurs. */
  function IndexFrom(s: string, pat: string, from: nat): (r: Option<nat>)
    ensures r.Some? ==> from <= r.value && OccursAt(s, pat, r.value)
    ensures r.Some? ==> forall j: nat :: from <= j < r.value ==> !OccursAt(s, pat, j)
    ensures r.None? ==> forall j: nat :: from <= j ==> !OccursAt(s, pat, j)
    decreases |s| - from
  {
    if from + |pat| > |s| then None
    else if s[from..from + |pat|] == pat then Some(from)
    else IndexFrom(s, pat, from + 1)
  }

  /** The first position where `pat` occurs in `s`. */
  function IndexOf(s: string, pat: string): Option<nat> {
    IndexFrom(s, pat, 0)
  }

  /** `s.replace(pat, rep)` with a string pattern: only the first
      occurrence is replaced, and a string without one is unchanged. */
  function ReplaceFirst(s: string, pat: string, rep: string): (r: string)
    ensures |r| == if IndexOf(s, pat).Some? then |s| - |pat| + |rep| else |s|
    ensures IndexOf(s, pat).None? ==> r == s
    ensures IndexOf(s, pat).Some? ==>
      var i := IndexOf(s, pat).value;
      i + |pat| <= |s| && r[..i] == s[..i] && r[i..i + |rep|] == rep && r[i + |rep|..] == s[i + |pat|..]
  {
    match IndexOf(s, pat)
    case None => s
    case Some(i) => s[..i] + rep + s[i + |pat|..]
  }

  /** Replacing replaces an occurrence: without `pat` in `s` nothing changes,
      and otherwise the text before the first occurrence is kept and holds
      no occurrence of its own. */
  lemma ReplaceFirstOnly(s: string, pat: string, rep: string, j: nat)
    requires OccursAt(s, pat, j)
    ensures IndexOf(s, pat).Some? && IndexOf(s, pat).value <= j
    ensures ReplaceFirst(s, pat, rep)[..IndexOf(s, pat).value] == s[..IndexOf(s, pat).value]
  {
  }

  /** The placeholder `{name}`. */
  function Placeholder(name: string): string {
    "{" + name + "}"
  }

  /** The string after the `forEach` over `params`, in key order: each
      placeholder's first occurrence replaced by its value. A string in
      which none of the placeholders occurs is left as it is. */
  function Interpolate(s: string, params: seq<(string, string)>): (r: string)
    ensures (forall i :: 0 <= i < |params| ==> IndexOf(s, Placeholder(params[i].0)).None?) ==> r == s
  {
    if params == [] then s
    else
      var last := params[|params| - 1];
      ReplaceFirst(Interpolate(s, params[..|params| - 1]), Placeholder(last.0), last.1)
  }

  /** `t(key, params)` with `locales[currentLang]` as `root`: the entry the
      dotted key leads to, interpolated when it is a string, or the key
      itself when the lookup fails: some segment is missing or names an
      empty string. A table in the result always comes from the lookup. */
  function Translate(root: Option<Value>, key: string, params: seq<(string, string)>): (r: Value)
    ensures Lookup(root, Split(key, '.')).None? ==> r == Str(key)
    ensures Lookup(root, Split(key, '.')).Some? ==> Truthy(Lookup(root, Split(key, '.')))
    ensures r.Obj? ==> Lookup(root, Split(key, '.')) == Some(r)
    ensures params == [] && Lookup(root, Split(key, '.')).Some? ==> r == Lookup(root, Split(key, '.')).value
  {
    match Lookup(root, Split(key, '.'))
    case None => Str(key)
    case Some(Str(s)) => Str(Interpolate(s, params))
    case Some(v) => v
  }

  /** A two-level key `group.name` names the entry of the group's table. */
  lemma TranslateNested(fields: map<string, Value>, group: string, name: string, text: string)
    requires '.' !in group && '.' !in name
    requires group in fields && fields[group].Obj? && name in fields[group].fields
    requires fields[group].fields[name] == Str(text) && text != ""
    ensures Translate(Some(Obj(fields)), group + "." + name, []) == Str(text)
  {
    JoinSplit([group, name], '.');
    assert Join([group, name], ".") == group + "." + name by {
      assert [group, name][1..] == [name];
    }
    var keys := [group, name];
    assert keys[1..] == [name] && keys[1..][1..] == [];
    var inner := Some(fields[group]);
    assert Lookup(inner, [name]) == Some(Str(text));
    assert Lookup(Some(Obj(fields)), keys) == Some(Str(text));
  }

  /** A key whose first segment is not in the table comes back as itself. */
  lemma TranslateMissing(fields: map<string, Value>, key: string, params: seq<(string, string)>)
    requires Split(key, '.')[0] !in fields
    ensures Translate(Some(Obj(fields)), key, params) == Str(key)
  {
  }

  /** The module state: `currentLang` and the stored language. */
  class Translator {
    const locales: map<string, Value>
    var currentLang: string
    var savedLang: Option<string>

    /** `locales[lang]` is truthy. */
    predicate Supported(lang: string)
      reads this
    {
      lang in locales && Truthy(Some(locales[lang]))
    }

    constructor (locales: map<string, Value>, savedLang: Option<string>)
      ensures this.locales == locales && currentLang == "hr" && this.savedLang == savedLang
    {
      this.locales := locales;
      currentLang := "hr";
      this.savedLang := savedLang;
    }

    /** `initI18n(lang)`: a supported language becomes current, anything
        else keeps the current one. */
    method InitI18n(lang: string)
      modifies this`currentLang
      ensures currentLang == if Supported(lang) then lang else old(currentLang)
    {
      if lang in locales && Truthy(Some(locales[lang])) {
        currentLang := lang;
      }
    }

    /** `setLanguage(lang)`: as `initI18n`, and a supported language is also
        written to storage. */
    method SetLanguage(lang: string)
      modifies this`currentLang, this`savedLang
      ensures Supported(lang) ==> currentLang == lang && savedLang == Some(lang)
      ensures !Supported(lang) ==> currentLang == old(currentLang) && savedLang == old(savedLang)
    {
      if lang in locales && Truthy(Some(locales[lang])) {
        currentLang := lang;
        savedLang := Some(lang);
      }
    }

    function GetLanguage(): (r: string)
      reads this
      ensures r == currentLang
    {
      currentLang
    }

    /** `t(key, params)`. */
    method T(key: string, params: seq<(string, string)>) returns (r: Value)
      ensures r == Translate(if currentLang in locales then Some(locales[currentLang]) else None, key, params)
    {
      var root := if currentLang in locales then Some(locales[currentLang]) else None;
      var keys := Split(key, '.');
      var value := root;
      var i := 0;
      while i < |keys|
        invariant 0 <= i <= |keys|
        invariant Lookup(value, keys[i..]) == Lookup(root, keys)
        invariant i > 0 ==> value.Some?
      {
        assert keys[i..][1..] == keys[i + 1..];
        value := Child(value, keys[i]);
        if !Truthy(value) {
          return Str(key);
        }
        i := i + 1;
      }
      r := value.value;
      if r.Str? {
        var s := r.s;
        for j := 0 to |params|
          invariant s == Interpolate(r.s, params[..j])
        {
          assert params[..j + 1][..j] == params[..j];
          s := ReplaceFirst(s, Placeholder(params[j].0), params[j].1);
        }
        assert params[..|params|] == params;
        r := Str(s);
      }
    }
  }
}
