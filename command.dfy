/**
 * The command string MPVCore::command hands to mpv_command_string: every
 * argument converted to text, an argument containing a space wrapped in
 * double quotes, the words joined by single spaces in argument order.
 *
 * `Tokens` is an independent reading of such a string (a quoted word runs to
 * the next double quote, any other word to the next space); it recovers the
 * arguments exactly when none of them contains a double quote, and
 * `QuoteCollision` shows why that condition is needed.
 */
module CommandLine {
  import opened Values

  /** The space-triggered quoting of one argument. */
  function Quote(arg: string): (r: string)
  {
    if ' ' in arg then "\"" + arg + "\"" else arg
  }

  /** The quoted words, in argument order. */
  function Words(texts: seq<string>): (ws: seq<string>)
    ensures |ws| == |texts|
  {
    seq(|texts|, i requires 0 <= i < |texts| => Quote(texts[i]))
  }

  /** Words separated by single spaces. */
  function Join(ws: seq<string>): (r: string)
  {
    if |ws| == 0 then "" else if |ws| == 1 then ws[0] else ws[0] + " " + Join(ws[1..])
  }

  /** The command string for the given argument texts. */
  function CommandText(texts: seq<string>): string
  {
    Join(Words(texts))
  }

  /** QVariant::toString of every argument. */
  function Texts(args: seq<Value>): (ts: seq<string>)
    ensures |ts| == |args|
  {
    seq(|args|, i requires 0 <= i < |args| => ToText(args[i]))
  }

  /** Appending one word adds one space and the word, as the builder loop does. */
  lemma {:induction false} JoinSnoc(ws: seq<string>, w: string)
    requires |ws| > 0
    ensures Join(ws + [w]) == Join(ws) + " " + w
    decreases |ws|
  {
    if |ws| == 1 {
      assert (ws + [w])[1..] == [w];
    } else {
      assert (ws + [w])[1..] == ws[1..] + [w];
      JoinSnoc(ws[1..], w);
    }
  }

  /**
   * The builder loop of MPVCore::command: for each argument a separating
   * space (after the first) and the argument, quoted when it contains a space.
   */
  method BuildCommand(args: seq<Value>) returns (cmd: string)
    ensures cmd == CommandText(Texts(args))
  {
    ghost var ws := Words(Texts(args));
    cmd := "";
    var i := 0;
    while i < |args|
      invariant 0 <= i <= |args|
      invariant cmd == Join(ws[..i])
    {
      var arg := ToText(args[i]);
      var word := if ' ' in arg then "\"" + arg + "\"" else arg;
      assert ws[..i + 1] == ws[..i] + [word];
      if i > 0 {
        JoinSnoc(ws[..i], word);
        cmd := cmd + " " + word;
      } else {
        cmd := cmd + word;
      }
      i := i + 1;
    }
    assert ws[..|args|] == ws;
  }

  // ---------------------------------------------------------------------
  // Reading a command string back.
  // ---------------------------------------------------------------------

  /** The first index at or after `i` holding `stop`, or the length. */
  function Scan(s: string, i: nat, stop: char): (k: nat)
    requires i <= |s|
    ensures i <= k <= |s|
    ensures k < |s| ==> s[k] == stop
    ensures forall j :: i <= j < k ==> s[j] != stop
    decreases |s| - i
  {
    if i == |s| || s[i] == stop then i else Scan(s, i + 1, stop)
  }

  lemma {:induction false} ScanFinds(s: string, i: nat, k: nat, stop: char)
    requires i <= k <= |s|
    requires forall j :: i <= j < k ==> s[j] != stop
    requires k == |s| || s[k] == stop
    ensures Scan(s, i, stop) == k
    decreases k - i
  {
    if i < k {
      ScanFinds(s, i + 1, k, stop);
    }
  }

  /**
   * Splits a command string into words: a word opening with a double quote
   * runs to the next double quote, any other word to the next space; one
   * separator character follows each word.
   */
  function Tokens(s: string): (ts: seq<string>)
    ensures |ts| >= 1
    decreases |s|
  {
    var quoted := |s| > 0 && s[0] == '"';
    var k := if quoted then Scan(s, 1, '"') else Scan(s, 0, ' ');
    var tok := if quoted then s[1..k] else s[..k];
    var rest := if quoted then (if k < |s| then s[k + 1..] else []) else s[k..];
    if |rest| == 0 then [tok] else [tok] + Tokens(rest[1..])
  }

  /** A quoted word: everything up to the closing double quote. */
  lemma QuotedToken(t: string, r: string)
    requires '"' !in t
    requires r == [] || r[0] == ' '
    ensures Tokens(['"'] + t + ['"'] + r) == if r == [] then [t] else [t] + Tokens(r[1..])
  {
    var s := ['"'] + t + ['"'] + r;
    ScanFinds(s, 1, |t| + 1, '"');
    assert s[1..|t| + 1] == t;
    assert s[|t| + 2..] == r;
  }

  /** A bare word: everything up to the next space. */
  lemma BareToken(t: string, r: string)
    requires '"' !in t && ' ' !in t
    requires r == [] || r[0] == ' '
    ensures Tokens(t + r) == if r == [] then [t] else [t] + Tokens(r[1..])
  {
    var s := t + r;
    assert |s| > 0 ==> s[0] != '"' by {
      if |t| > 0 { assert s[0] == t[0]; }
    }
    ScanFinds(s, 0, |t|, ' ');
    assert s[..|t|] == t;
    assert s[|t|..] == r;
  }

  /** The first word of a command string is the first argument; the rest follows it. */
  lemma FirstToken(t: string, r: string)
    requires '"' !in t
    requires r == [] || r[0] == ' '
    ensures Tokens(Quote(t) + r) == if r == [] then [t] else [t] + Tokens(r[1..])
  {
    if ' ' in t {
      QuotedToken(t, r);
      assert Quote(t) + r == ['"'] + t + ['"'] + r;
    } else {
      BareToken(t, r);
    }
  }

  /** The command string of two or more arguments: the first word, a space, the rest. */
  lemma CommandTextCons(ts: seq<string>)
    requires |ts| >= 2
    ensures CommandText(ts) == Quote(ts[0]) + (" " + CommandText(ts[1..]))
  {
    assert Words(ts)[1..] == Words(ts[1..]);
  }

  /** Reading two or more arguments back: the first, then the reading of the rest. */
  lemma TokensCons(ts: seq<string>)
    requires |ts| >= 2 && '"' !in ts[0]
    ensures Tokens(CommandText(ts)) == [ts[0]] + Tokens(CommandText(ts[1..]))
  {
    var r := " " + CommandText(ts[1..]);
    CommandTextCons(ts);
    FirstToken(ts[0], r);
    assert r[1..] == CommandText(ts[1..]);
  }

  /** Reading the command string back gives the argument texts, when none holds a double quote. */
  lemma {:induction false} TokensOfCommand(ts: seq<string>)
    requires |ts| >= 1
    requires forall i :: 0 <= i < |ts| ==> '"' !in ts[i]
    ensures Tokens(CommandText(ts)) == ts
    decreases |ts|
  {
    if |ts| == 1 {
      FirstToken(ts[0], []);
      assert CommandText(ts) == Quote(ts[0]) + [];
    } else {
      TokensCons(ts);
      TokensOfCommand(ts[1..]);
      assert [ts[0]] + ts[1..] == ts;
    }
  }

  /** An embedded double quote is not escaped: two different argument lists give the same string. */
  lemma QuoteCollision()
    ensures ["a b"] != ["\"a", "b\""]
    ensures CommandText(["a b"]) == CommandText(["\"a", "b\""]) == "\"a b\""
  {
    assert "a b"[1] == ' ';
    assert Quote("a b") == "\"a b\"";
    assert ' ' !in "\"a" && ' ' !in "b\"";
    assert Words(["a b"]) == [Quote("a b")];
    assert Words(["\"a", "b\""]) == ["\"a", "b\""];
    assert ["a b"][0] != ["\"a", "b\""][0];
  }
}
