/**
 The shortcut catalog's record types and the parser that turns a shortcut
 notation such as `<leader>ff` into the flat list of key presses the keyboard
 diagram highlights.
 */
module Commands {
  import opened Ascii

  /** The editor mode a shortcut applies in; a record that names none gets `Normal`. */
  datatype Mode = Normal | Insert | Visual | Command {
    /** The label of the mode: a capitalised word of ASCII letters. */
    function AsStr(): (r: string)
      ensures IsWord(r)
    {
      match this
      case Normal => "Normal"
      case Insert => "Insert"
      case Visual => "Visual"
      case Command => "Command"
    }
  }

  const DefaultMode: Mode := Normal

  /** A non-empty word of ASCII letters that starts with a capital. */
  predicate IsWord(s: string)
  {
    && s != []
    && IsUpperLetter(s[0])
    && forall i :: 0 <= i < |s| ==> IsUpperLetter(s[i]) || IsLowerLetter(s[i])
  }

  lemma ModeLabelsDistinct(m: Mode, n: Mode)
    ensures m.AsStr() == n.AsStr() <==> m == n
  {
  }

  datatype Category =
    | General | Navigation | Search | Lsp | Git | Buffer | Window
    | Tab | Code | Debug | Terminal | Ui | Plugin
  {
    /**
     The label shown in the result list and matched by the search: a word of
     ASCII letters starting with a capital, so lowercasing it is exact.
     */
    function AsStr(): (r: string)
      ensures IsWord(r)
    {
      match this
      case General => "General"
      case Navigation => "Navigation"
      case Search => "Search"
      case Lsp => "LSP"
      case Git => "Git"
      case Buffer => "Buffer"
      case Window => "Window"
      case Tab => "Tab"
      case Code => "Code"
      case Debug => "Debug"
      case Terminal => "Terminal"
      case Ui => "UI"
      case Plugin => "Plugin"
    }
  }

  /** `Category::all`: every category, each exactly once, in declaration order. */
  function AllCategories(): (r: seq<Category>)
    ensures |r| == 13 && r[0] == General && r[12] == Plugin
    ensures forall i, j :: 0 <= i < j < |r| ==> r[i] != r[j]
  {
    [General, Navigation, Search, Lsp, Git, Buffer, Window, Tab, Code, Debug, Terminal, Ui, Plugin]
  }

  /** No category is missing from `AllCategories`. */
  lemma AllCategoriesComplete(c: Category)
    ensures c in AllCategories()
  {
    var all := AllCategories();
    match c
    case General => assert all[0] == c;
    case Navigation => assert all[1] == c;
    case Search => assert all[2] == c;
    case Lsp => assert all[3] == c;
    case Git => assert all[4] == c;
    case Buffer => assert all[5] == c;
    case Window => assert all[6] == c;
    case Tab => assert all[7] == c;
    case Code => assert all[8] == c;
    case Debug => assert all[9] == c;
    case Terminal => assert all[10] == c;
    case Ui => assert all[11] == c;
    case Plugin => assert all[12] == c;
  }

  /** Distinct categories have distinct labels, even once the search lowercases them. */
  lemma CategoryLabelsDistinct(c: Category, d: Category)
    ensures c.AsStr() == d.AsStr() <==> c == d
    ensures Lower(c.AsStr()) == Lower(d.AsStr()) <==> c == d
  {
    // The lowercased first letter and the length already tell the labels apart.
    if Lower(c.AsStr()) == Lower(d.AsStr()) {
      var x, y := c.AsStr(), d.AsStr();
      assert |x| == |y| && Lower(x)[0] == Lower(y)[0];
      assert LowerChar(x[0]) == LowerChar(y[0]);
    }
  }

  /** One shortcut of the catalog. */
  datatype Command = Command(keys: string, description: string, category: Category, mode: Mode)

  /** One key of a parsed shortcut. */
  datatype KeyPress = KeyPress(key: string, isModifier: bool, isLeader: bool)

  // ---------------------------------------------------------------------------
  // Special tokens `<...>`
  // ---------------------------------------------------------------------------

  const LeaderNames: set<string> := {"leader", "space"}

  const ModifierNames: set<string> := {"c", "ctrl", "control", "a", "alt", "m", "meta", "s", "shift"}

  /** Every token body (lowercased) that the alias table renames. */
  const KnownNames: set<string> :=
    LeaderNames + ModifierNames + {"cr", "enter", "return", "esc", "escape", "bs", "backspace", "tab"}

  const ModifierKeys: set<string> := {"Ctrl", "Alt", "Shift"}

  /** The display name of a token body: an alias when the lowercased body is known, else the body verbatim. */
  function DisplayKey(body: string): string
  {
    var lower := Lower(body);
    if lower == "leader" || lower == "space" then "Space"
    else if lower == "cr" || lower == "enter" || lower == "return" then "Enter"
    else if lower == "esc" || lower == "escape" then "Esc"
    else if lower == "bs" || lower == "backspace" then "Backsp"
    else if lower == "tab" then "Tab"
    else if lower == "c" || lower == "ctrl" || lower == "control" then "Ctrl"
    else if lower == "a" || lower == "alt" || lower == "m" || lower == "meta" then "Alt"
    else if lower == "s" || lower == "shift" then "Shift"
    else body
  }

  /** The key press a `<body>` token yields. */
  function SpecialKey(body: string): KeyPress
  {
    var lower := Lower(body);
    KeyPress(DisplayKey(body), lower in ModifierNames, lower in LeaderNames)
  }

  /** The key press a literal character outside a token yields. */
  function PlainKey(c: char): KeyPress
  {
    KeyPress([c], false, false)
  }

  /** The flag laws of a token: it is a leader exactly when it shows as `Space`,
      a modifier exactly when it shows as `Ctrl`, `Alt` or `Shift`, and an
      unknown body is kept as written. */
  lemma SpecialKeyShape(body: string)
    ensures SpecialKey(body).isLeader <==> Lower(body) in LeaderNames
    ensures SpecialKey(body).isModifier <==> Lower(body) in ModifierNames
    ensures SpecialKey(body).isLeader <==> SpecialKey(body).key == "Space"
    ensures SpecialKey(body).isModifier <==> SpecialKey(body).key in ModifierKeys
    ensures Lower(body) == "s" || Lower(body) == "shift" ==> SpecialKey(body).key == "Shift"
    ensures Lower(body) == "c" || Lower(body) == "ctrl" || Lower(body) == "control" ==> SpecialKey(body).key == "Ctrl"
    ensures Lower(body) !in KnownNames ==> SpecialKey(body) == KeyPress(body, false, false)
  {
    assert Lower("Space") == "space";
    assert Lower("Ctrl") == "ctrl";
    assert Lower("Alt") == "alt";
    assert Lower("Shift") == "shift";
  }

  // ---------------------------------------------------------------------------
  // The notation parser
  // ---------------------------------------------------------------------------

  /**
   Splits what follows a `<` into the token body and the rest: the body runs up
   to the first `>`, which is consumed; without a `>` the body is all of `t`.
   */
  function SplitToken(t: string): (r: (string, string))
    ensures '>' !in r.0
    ensures t == r.0 + ['>'] + r.1 || (t == r.0 && r.1 == [])
    decreases |t|
  {
    if t == [] then ([], [])
    else if t[0] == '>' then ([], t[1..])
    else
      var (body, rest) := SplitToken(t[1..]);
      assert t == [t[0]] + t[1..];
      ([t[0]] + body, rest)
  }

  /** The body of a token ends at the first `>`, whatever follows it. */
  lemma {:induction false} SplitTokenClosed(body: string, rest: string)
    requires '>' !in body
    ensures SplitToken(body + ['>'] + rest) == (body, rest)
    decreases |body|
  {
    var t := body + ['>'] + rest;
    if body == [] {
      assert t[0] == '>' && t[1..] == rest;
    } else {
      assert t[0] == body[0] && t[1..] == body[1..] + ['>'] + rest;
      SplitTokenClosed(body[1..], rest);
      assert [body[0]] + body[1..] == body;
    }
  }

  /** A token without a closing `>` takes the rest of the string as its body. */
  lemma {:induction false} SplitTokenUnclosed(body: string)
    requires '>' !in body
    ensures SplitToken(body) == (body, [])
    decreases |body|
  {
    if body != [] {
      SplitTokenUnclosed(body[1..]);
      assert [body[0]] + body[1..] == body;
    }
  }

  /**
   The keys of a notation string, scanned left to right: a `<...>` token gives
   one key, a `-` or `+` outside a token gives none, every other character one.
   */
  function Parse(s: string): (r: seq<KeyPress>)
    ensures |r| <= |s|
    decreases |s|
  {
    if s == [] then []
    else if s[0] == '<' then
      var (body, rest) := SplitToken(s[1..]);
      [SpecialKey(body)] + Parse(rest)
    else if s[0] == '-' || s[0] == '+' then Parse(s[1..])
    else [PlainKey(s[0])] + Parse(s[1..])
  }

  /**
   The inner loop of `parse_keys`: collects a token body from position `from`
   (just after a `<`) up to the first `>`, which it consumes, or to the end.
   */
  method ReadToken(keys: string, from: nat) returns (special: string, next: nat)
    requires from <= |keys|
    ensures from <= next <= |keys|
    ensures SplitToken(keys[from..]) == (special, keys[next..])
  {
    special := "";
    next := from;
    ghost var closed := false;
    while next < |keys|
      invariant from <= next <= |keys|
      invariant special == keys[from..next]
      invariant '>' !in special
      invariant !closed
    {
      var c := keys[next];
      next := next + 1;
      if c == '>' {
        closed := true;
        break;
      }
      assert keys[from..next] == keys[from..next - 1] + [c];
      special := special + [c];
    }
    if closed {
      assert keys[from..] == special + ['>'] + keys[next..];
      SplitTokenClosed(special, keys[next..]);
    } else {
      assert keys[from..] == special && keys[next..] == [];
      SplitTokenUnclosed(special);
    }
  }

  lemma ParseTokenAt(keys: string, i: nat, special: string, next: nat)
    requires i < next <= |keys| && keys[i] == '<'
    requires SplitToken(keys[i + 1..]) == (special, keys[next..])
    ensures Parse(keys[i..]) == [SpecialKey(special)] + Parse(keys[next..])
  {
    assert keys[i..][1..] == keys[i + 1..];
  }

  lemma ParseLiteralAt(keys: string, i: nat)
    requires i < |keys| && keys[i] != '<'
    ensures keys[i] == '-' || keys[i] == '+' ==> Parse(keys[i..]) == Parse(keys[i + 1..])
    ensures keys[i] != '-' && keys[i] != '+' ==> Parse(keys[i..]) == [PlainKey(keys[i])] + Parse(keys[i + 1..])
  {
    assert keys[i..] == [keys[i]] + keys[i + 1..];
    ParseLiteral(keys[i], keys[i + 1..]);
  }

  /** `Command::parse_keys` */
  method ParseKeys(keys: string) returns (result: seq<KeyPress>)
    ensures result == Parse(keys)
    ensures |result| <= |keys|
  {
    result := [];
    var i := 0;
    while i < |keys|
      invariant 0 <= i <= |keys|
      invariant result + Parse(keys[i..]) == Parse(keys)
    {
      var c := keys[i];
      if c == '<' {
        var special, next := ReadToken(keys, i + 1);
        ParseTokenAt(keys, i, special, next);
        assert (result + [SpecialKey(special)]) + Parse(keys[next..]) == result + Parse(keys[i..]);
        result := result + [SpecialKey(special)];
        i := next;
      } else {
        ParseLiteralAt(keys, i);
        if c != '-' && c != '+' {
          assert (result + [PlainKey(c)]) + Parse(keys[i + 1..]) == result + Parse(keys[i..]);
          result := result + [PlainKey(c)];
        }
        i := i + 1;
      }
    }
    assert keys[i..] == [];
  }

  // ---------------------------------------------------------------------------
  // Properties of the parser
  // ---------------------------------------------------------------------------

  /** A closed token yields exactly one key and parsing resumes after its `>`. */
  lemma ParseClosedToken(body: string, rest: string)
    requires '>' !in body
    ensures Parse(['<'] + body + ['>'] + rest) == [SpecialKey(body)] + Parse(rest)
  {
    var s := ['<'] + body + ['>'] + rest;
    assert s[1..] == body + ['>'] + rest;
    SplitTokenClosed(body, rest);
  }

  /** An unclosed token swallows the rest of the string and yields one key. */
  lemma ParseUnclosedToken(body: string)
    requires '>' !in body
    ensures Parse(['<'] + body) == [SpecialKey(body)]
  {
    var s := ['<'] + body;
    assert s[1..] == body;
    SplitTokenUnclosed(body);
  }

  /** A literal character outside a token: `-` and `+` give nothing, any other `c` gives `PlainKey(c)`. */
  lemma ParseLiteral(c: char, rest: string)
    requires c != '<'
    ensures c == '-' || c == '+' ==> Parse([c] + rest) == Parse(rest)
    ensures c != '-' && c != '+' ==> Parse([c] + rest) == [PlainKey(c)] + Parse(rest)
  {
    assert ([c] + rest)[1..] == rest;
  }

  /** Every key the parser emits obeys the flag laws of `SpecialKeyShape`. */
  lemma {:induction false} ParseFlags(s: string)
    ensures forall k :: k in Parse(s) ==> (k.isLeader <==> k.key == "Space")
    ensures forall k :: k in Parse(s) ==> (k.isModifier <==> k.key in ModifierKeys)
    decreases |s|
  {
    if s == [] {
    } else if s[0] == '<' {
      var (body, rest) := SplitToken(s[1..]);
      SpecialKeyShape(body);
      ParseFlags(rest);
    } else if s[0] == '-' || s[0] == '+' {
      ParseFlags(s[1..]);
    } else {
      ParseFlags(s[1..]);
    }
  }

  /** A notation without `<` is its characters minus the `-`/`+` separators, one plain key each. */
  lemma {:induction false} ParseWithoutTokens(s: string)
    requires '<' !in s
    ensures |Parse(s)| == |s| - multiset(s)['-'] - multiset(s)['+']
    ensures forall k :: k in Parse(s) ==> !k.isLeader && !k.isModifier && |k.key| == 1
    decreases |s|
  {
    if s != [] {
      assert s == [s[0]] + s[1..];
      assert multiset(s) == multiset{s[0]} + multiset(s[1..]);
      ParseWithoutTokens(s[1..]);
    }
  }

  /** The catalog's `<leader>ff`: the leader key, then `f` twice. */
  lemma ParseLeaderFF(keys: string)
    requires keys == "<leader>ff"
    ensures Parse(keys) == [KeyPress("Space", false, true), PlainKey('f'), PlainKey('f')]
  {
    var body, rest := "leader", "ff";
    assert keys == ['<'] + body + ['>'] + rest;
    ParseClosedToken(body, rest);
    LowerLeader();
    assert rest == ['f'] + "f";
    ParseLiteral('f', "f");
    assert "f" == ['f'] + "";
    ParseLiteral('f', "");
  }

  lemma LowerLeader()
    ensures SpecialKey("leader") == KeyPress("Space", false, true)
  {
    assert Lower("leader") == "leader";
    assert "leader" in LeaderNames;
  }

  /** `<C-w>v`: the unknown body `C-w` is kept whole, and the last key is `v`. */
  lemma ParseCtrlW(keys: string)
    requires keys == "<C-w>v"
    ensures Parse(keys) == [KeyPress("C-w", false, false), PlainKey('v')]
  {
    var body, rest := "C-w", "v";
    assert keys == ['<'] + body + ['>'] + rest;
    ParseClosedToken(body, rest);
    assert Lower(body) == "c-w";
    SpecialKeyShape(body);
    assert rest == ['v'] + "";
    ParseLiteral('v', "");
  }

}
