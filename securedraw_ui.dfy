/**
 * The two handlers of `SecuredrawCard` in
 * `src/components/securedraw/securedraw-ui.tsx` that decide what is sent to
 * the draw program: "Set participants", which turns the text area into a
 * list of public keys, and "Random draw!", which guards the draw behind a
 * prompt. Building a `PublicKey` from text and JavaScript's `parseInt` are
 * library code; the handlers take them as function parameters.
 */
module SecuredrawUi {
  import opened Runtime
  import DrawProgram

  /** The characters `String.prototype.trim` removes: JavaScript's WhiteSpace and LineTerminator. */
  predicate IsTrimmable(c: char) {
    || c == '\t' || c == '\n' || c == '\U{B}' || c == '\U{C}' || c == '\r' || c == ' '
    || c == '\U{A0}' || c == '\U{1680}' || ('\U{2000}' <= c <= '\U{200A}')
    || c == '\U{2028}' || c == '\U{2029}' || c == '\U{202F}' || c == '\U{205F}'
    || c == '\U{3000}' || c == '\U{FEFF}'
  }

  /** A string made of trimmable characters only (the empty string included). */
  predicate Blank(s: string) {
    forall i :: 0 <= i < |s| ==> IsTrimmable(s[i])
  }

  /** A string that neither starts nor ends with a trimmable character. */
  predicate Trimmed(s: string) {
    s == [] || (!IsTrimmable(s[0]) && !IsTrimmable(s[|s| - 1]))
  }

  // ---------------------------------------------------------------- split

  /** `s.split(sep)`: the pieces between the separators; `""` splits into `[""]`. */
  function Split(s: string, sep: char): (pieces: seq<string>)
    ensures |pieces| >= 1
    ensures forall i :: 0 <= i < |pieces| ==> sep !in pieces[i]
    decreases |s|
  {
    if s == [] then [""]
    else
      var rest := Split(s[1..], sep);
      if s[0] == sep then [""] + rest else [[s[0]] + rest[0]] + rest[1..]
  }

  /** The pieces with `sep` between each two: `pieces.join(sep)`. */
  function Join(pieces: seq<string>, sep: char): string
    decreases |pieces|
  {
    if pieces == [] then ""
    else if |pieces| == 1 then pieces[0]
    else pieces[0] + [sep] + Join(pieces[1..], sep)
  }

  /** Splitting loses nothing: joining the pieces gives back the text. */
  lemma {:induction false} JoinSplit(s: string, sep: char)
    ensures Join(Split(s, sep), sep) == s
    decreases |s|
  {
    if s != [] {
      var rest := Split(s[1..], sep);
      JoinSplit(s[1..], sep);
      if s[0] == sep {
        assert Split(s, sep) == [""] + rest;
        assert ([""] + rest)[1..] == rest;
      } else {
        var pieces := [[s[0]] + rest[0]] + rest[1..];
        assert Split(s, sep) == pieces;
        if |rest| == 1 {
          assert Join(pieces, sep) == [s[0]] + rest[0];
        } else {
          assert pieces[1..] == rest[1..];
          assert Join(rest, sep) == rest[0] + [sep] + Join(rest[1..], sep);
          assert Join(pieces, sep) == [s[0]] + rest[0] + [sep] + Join(rest[1..], sep);
        }
        assert s == [s[0]] + s[1..];
      }
    }
  }

  /** A piece without the separator splits into itself. */
  lemma {:induction false} SplitPiece(p: string, sep: char)
    requires sep !in p
    ensures Split(p, sep) == [p]
    decreases |p|
  {
    if p != [] {
      SplitPiece(p[1..], sep);
      assert [p[0]] + p[1..] == p;
    }
  }

  /** A piece, the separator, then more text: the piece comes first, then the pieces of the rest. */
  lemma {:induction false} SplitAfterPiece(p: string, sep: char, rest: string)
    requires sep !in p
    ensures Split(p + [sep] + rest, sep) == [p] + Split(rest, sep)
    decreases |p|
  {
    if p == [] {
      assert p + [sep] + rest == [sep] + rest;
      assert ([sep] + rest)[1..] == rest;
    } else {
      var s := p + [sep] + rest;
      assert s[0] == p[0] && s[1..] == p[1..] + [sep] + rest;
      SplitAfterPiece(p[1..], sep, rest);
      assert [p[0]] + p[1..] == p;
    }
  }

  /** Joining is undone by splitting, when no piece holds the separator. */
  lemma {:induction false} SplitJoin(pieces: seq<string>, sep: char)
    requires |pieces| >= 1
    requires forall i :: 0 <= i < |pieces| ==> sep !in pieces[i]
    ensures Split(Join(pieces, sep), sep) == pieces
    decreases |pieces|
  {
    if |pieces| == 1 {
      SplitPiece(pieces[0], sep);
    } else {
      SplitJoin(pieces[1..], sep);
      SplitAfterPiece(pieces[0], sep, Join(pieces[1..], sep));
      assert [pieces[0]] + pieces[1..] == pieces;
    }
  }

  // ----------------------------------------------------------------- trim

  /** Drops the trimmable characters at the start of `s`. */
  function TrimStart(s: string): (r: string)
    ensures |r| <= |s| && r == s[|s| - |r|..]
    ensures forall i :: 0 <= i < |s| - |r| ==> IsTrimmable(s[i])
    ensures r != [] ==> !IsTrimmable(r[0])
    decreases |s|
  {
    if s != [] && IsTrimmable(s[0]) then TrimStart(s[1..]) else s
  }

  /** Drops the trimmable characters at the end of `s`. */
  function TrimEnd(s: string): (r: string)
    ensures |r| <= |s| && r == s[..|r|]
    ensures forall i :: |r| <= i < |s| ==> IsTrimmable(s[i])
    ensures r != [] ==> !IsTrimmable(r[|r| - 1])
    decreases |s|
  {
    if s != [] && IsTrimmable(s[|s| - 1]) then TrimEnd(s[..|s| - 1]) else s
  }

  /** Cutting `s` where `TrimStart` and then `TrimEnd` cut it loses nothing. */
  lemma TrimPieces(s: string)
    ensures var t := TrimStart(s); var r := TrimEnd(t);
      s == s[..|s| - |t|] + r + t[|r|..]
  {
    var t := TrimStart(s);
    var r := TrimEnd(t);
    var k := |s| - |t|;
    Concat3(s[..k], r, t[|r|..], s);
  }

  /** `s` is `a`, `b` and `c` in a row when it is `a` then `t`, and `t` is `b` then `c`. */
  lemma Concat3<T>(a: seq<T>, b: seq<T>, c: seq<T>, s: seq<T>)
    requires |a| <= |s| && a == s[..|a|]
    requires |b| <= |s| - |a| && b == s[|a|..][..|b|]
    requires c == s[|a|..][|b|..]
    ensures s == a + b + c
  {
    var t := s[|a|..];
    assert t == b + c;
    assert s == a + t;
  }

  /** What `TrimStart` and then `TrimEnd` cut off is blank. */
  lemma TrimmedOffBlank(s: string)
    ensures var t := TrimStart(s); var r := TrimEnd(t);
      Blank(s[..|s| - |t|]) && Blank(t[|r|..])
  {
    var t := TrimStart(s);
    BlankPrefix(s, |s| - |t|);
    BlankSuffix(t, |TrimEnd(t)|);
  }

  /** A prefix made of trimmable characters is blank. */
  lemma BlankPrefix(s: string, k: nat)
    requires k <= |s|
    requires forall i :: 0 <= i < k ==> IsTrimmable(s[i])
    ensures Blank(s[..k])
  {
    assert forall i :: 0 <= i < k ==> s[..k][i] == s[i];
  }

  /** A suffix made of trimmable characters is blank. */
  lemma BlankSuffix(s: string, k: nat)
    requires k <= |s|
    requires forall i :: k <= i < |s| ==> IsTrimmable(s[i])
    ensures Blank(s[k..])
  {
    assert forall i :: 0 <= i < |s| - k ==> s[k..][i] == s[k + i];
  }

  /**
   * `s.trim()`: the part of `s` between its leading and trailing trimmable
   * characters. It is empty exactly when `s` is blank.
   */
  function Trim(s: string): (r: string)
    ensures Trimmed(r)
    ensures r == [] <==> Blank(s)
    ensures Blank(s) || exists head, tail :: s == head + r + tail && Blank(head) && Blank(tail)
  {
    TrimEndsNotTrimmable(s);
    TrimEmptyIffBlank(s);
    TrimInfix(s);
    TrimEnd(TrimStart(s))
  }

  /** Neither end of what `TrimStart` and then `TrimEnd` leave is trimmable. */
  lemma TrimEndsNotTrimmable(s: string)
    ensures Trimmed(TrimEnd(TrimStart(s)))
  {
    var t := TrimStart(s);
    var r := TrimEnd(t);
    assert r != [] ==> r[0] == t[0];
  }

  /** What `TrimStart` and then `TrimEnd` leave is `s` with a blank part cut from each end. */
  lemma TrimInfix(s: string)
    ensures Blank(s) || exists head, tail :: s == head + TrimEnd(TrimStart(s)) + tail && Blank(head) && Blank(tail)
  {
    TrimPieces(s);
    TrimmedOffBlank(s);
  }

  /** Nothing is left after `TrimStart` and then `TrimEnd` exactly when `s` is blank. */
  lemma TrimEmptyIffBlank(s: string)
    ensures TrimEnd(TrimStart(s)) == [] <==> Blank(s)
  {
    var t := TrimStart(s);
    assert TrimEnd(t) == [] ==> t == [];
    if t == [] {
      assert forall i :: 0 <= i < |s| ==> IsTrimmable(s[i]);
    }
  }

  /** Trimming a trimmed string changes nothing. */
  lemma TrimTrimmed(s: string)
    requires Trimmed(s)
    ensures Trim(s) == s
  {
  }

  // ------------------------------------------------------- the key list

  /** `lines.map(key => key.trim())`. */
  function TrimEach(lines: seq<string>): seq<string> {
    seq(|lines|, i requires 0 <= i < |lines| => Trim(lines[i]))
  }

  /**
   * `keys.filter(key => key.length > 0)`: exactly the non-empty entries.
   * `DropEmptyKeepsOrder` shows that each is kept once, in input order.
   */
  function DropEmpty(keys: seq<string>): (r: seq<string>)
    ensures |r| <= |keys|
    ensures forall k :: k in r ==> k in keys && k != ""
    ensures forall i :: 0 <= i < |keys| && keys[i] != "" ==> keys[i] in r
    decreases |keys|
  {
    if keys == [] then []
    else
      var init := DropEmpty(keys[..|keys| - 1]);
      if keys[|keys| - 1] == "" then init else init + [keys[|keys| - 1]]
  }

  /** The positions of the non-empty entries, in increasing order. */
  function NonEmptyAt(keys: seq<string>): (idx: seq<nat>)
    ensures forall k :: 0 <= k < |idx| ==> idx[k] < |keys| && keys[idx[k]] != ""
    ensures forall k, l :: 0 <= k < l < |idx| ==> idx[k] < idx[l]
    ensures forall i :: 0 <= i < |keys| && keys[i] != "" ==> i in idx
    decreases |keys|
  {
    if keys == [] then []
    else
      var n := |keys| - 1;
      var init := NonEmptyAt(keys[..n]);
      if keys[n] == "" then init else init + [n]
  }

  /**
   * The filter keeps every non-empty entry once and in order: its k-th entry
   * is the k-th non-empty entry of the input.
   */
  lemma {:induction false} DropEmptyKeepsOrder(keys: seq<string>)
    ensures |DropEmpty(keys)| == |NonEmptyAt(keys)|
    ensures forall k :: 0 <= k < |NonEmptyAt(keys)| ==> DropEmpty(keys)[k] == keys[NonEmptyAt(keys)[k]]
    decreases |keys|
  {
    if keys != [] {
      var n := |keys| - 1;
      var init := keys[..n];
      DropEmptyKeepsOrder(init);
      var idx0 := NonEmptyAt(init);
      var r0 := DropEmpty(init);
      forall k | 0 <= k < |idx0|
        ensures r0[k] == keys[idx0[k]]
      {
        assert init[idx0[k]] == keys[idx0[k]];
      }
      DropEmptyLast(keys);
      if keys[n] != "" {
        KeepLast(keys, r0, idx0);
      }
    }
  }

  /** A non-empty last entry is kept as the last entry of the result. */
  lemma KeepLast(keys: seq<string>, r0: seq<string>, idx0: seq<nat>)
    requires keys != [] && |r0| == |idx0|
    requires forall k :: 0 <= k < |idx0| ==> idx0[k] < |keys| && r0[k] == keys[idx0[k]]
    ensures var n := |keys| - 1; var r := r0 + [keys[n]]; var idx := idx0 + [n];
      |r| == |idx| && forall k :: 0 <= k < |idx| ==> r[k] == keys[idx[k]]
  {
    var n := |keys| - 1;
    var r := r0 + [keys[n]];
    var idx := idx0 + [n];
    forall k | 0 <= k < |idx|
      ensures r[k] == keys[idx[k]]
    {
      if k < |idx0| {
        assert r[k] == r0[k] && idx[k] == idx0[k];
      }
    }
  }

  /**
   * The participant keys of the text area: one per line, trimmed, blank
   * lines dropped. Every key is trimmed and not empty.
   */
  function ParseKeys(input: string): (keys: seq<string>)
    ensures |keys| <= |Split(input, '\n')|
    ensures forall k :: k in keys ==> k != "" && Trimmed(k)
  {
    DropEmpty(TrimEach(Split(input, '\n')))
  }

  /** The positions of the lines that are not blank, in increasing order. */
  function NonBlankLines(lines: seq<string>): (idx: seq<nat>)
    ensures forall k :: 0 <= k < |idx| ==> idx[k] < |lines| && !Blank(lines[idx[k]])
    ensures forall k, l :: 0 <= k < l < |idx| ==> idx[k] < idx[l]
    ensures forall i :: 0 <= i < |lines| && !Blank(lines[i]) ==> i in idx
    decreases |lines|
  {
    if lines == [] then []
    else
      var n := |lines| - 1;
      var init := NonBlankLines(lines[..n]);
      if Blank(lines[n]) then init else init + [n]
  }

  /**
   * The keys are the non-blank lines, trimmed, in the order of the input:
   * the k-th key is the k-th non-blank line.
   */
  lemma {:induction false} ParseKeysFollowLines(lines: seq<string>)
    ensures |DropEmpty(TrimEach(lines))| == |NonBlankLines(lines)|
    ensures forall k :: 0 <= k < |NonBlankLines(lines)| ==>
      DropEmpty(TrimEach(lines))[k] == Trim(lines[NonBlankLines(lines)[k]])
    decreases |lines|
  {
    if lines != [] {
      var n := |lines| - 1;
      var init := lines[..n];
      ParseKeysFollowLines(init);
      var idx0 := NonBlankLines(init);
      var keys0 := DropEmpty(TrimEach(init));
      forall k | 0 <= k < |idx0|
        ensures keys0[k] == Trim(lines[idx0[k]])
      {
        assert init[idx0[k]] == lines[idx0[k]];
      }
      KeysOfLastLine(lines);
      NonBlankLinesLast(lines);
      if !Blank(lines[n]) {
        FollowLast(lines, keys0, idx0);
      }
    }
  }

  /** The last line adds its trimmed text as the last key, unless it is blank. */
  lemma KeysOfLastLine(lines: seq<string>)
    requires lines != []
    ensures var n := |lines| - 1;
      DropEmpty(TrimEach(lines)) ==
        (if Blank(lines[n]) then DropEmpty(TrimEach(lines[..n]))
         else DropEmpty(TrimEach(lines[..n])) + [Trim(lines[n])])
  {
    var n := |lines| - 1;
    var trimmed := TrimEach(lines);
    assert trimmed[..n] == TrimEach(lines[..n]);
    assert trimmed[n] == Trim(lines[n]);
    DropEmptyLast(trimmed);
  }

  /** The last line's position is the last non-blank position, unless it is blank. */
  lemma NonBlankLinesLast(lines: seq<string>)
    requires lines != []
    ensures var n := |lines| - 1;
      NonBlankLines(lines) ==
        (if Blank(lines[n]) then NonBlankLines(lines[..n]) else NonBlankLines(lines[..n]) + [n])
  {
  }

  /** The filter on a non-empty list: the filter of all but the last entry, then the last if it is kept. */
  lemma DropEmptyLast(keys: seq<string>)
    requires keys != []
    ensures var n := |keys| - 1;
      DropEmpty(keys) == if keys[n] == "" then DropEmpty(keys[..n]) else DropEmpty(keys[..n]) + [keys[n]]
  {
  }

  /** A non-blank last line adds its trimmed text as the last key. */
  lemma FollowLast(lines: seq<string>, keys0: seq<string>, idx0: seq<nat>)
    requires lines != [] && |keys0| == |idx0|
    requires forall k :: 0 <= k < |idx0| ==> idx0[k] < |lines| && keys0[k] == Trim(lines[idx0[k]])
    ensures var n := |lines| - 1; var keys := keys0 + [Trim(lines[n])]; var idx := idx0 + [n];
      |keys| == |idx| && forall k :: 0 <= k < |idx| ==> keys[k] == Trim(lines[idx[k]])
  {
    var n := |lines| - 1;
    var keys := keys0 + [Trim(lines[n])];
    var idx := idx0 + [n];
    forall k | 0 <= k < |idx|
      ensures keys[k] == Trim(lines[idx[k]])
    {
      if k < |idx0| {
        assert keys[k] == keys0[k] && idx[k] == idx0[k];
      }
    }
  }

  /** The pieces of a blank text are blank. */
  lemma {:induction false} SplitBlank(s: string, sep: char)
    requires Blank(s)
    ensures forall i :: 0 <= i < |Split(s, sep)| ==> Blank(Split(s, sep)[i])
    decreases |s|
  {
    if s != [] {
      SplitBlank(s[1..], sep);
    }
  }

  /** Blank pieces joined by a trimmable separator make a blank text. */
  lemma {:induction false} JoinBlank(pieces: seq<string>, sep: char)
    requires IsTrimmable(sep)
    requires forall i :: 0 <= i < |pieces| ==> Blank(pieces[i])
    ensures Blank(Join(pieces, sep))
    decreases |pieces|
  {
    if |pieces| > 1 {
      JoinBlank(pieces[1..], sep);
    }
  }

  /** When every line is blank there is no non-blank line. */
  lemma AllBlankNoLines(lines: seq<string>)
    requires forall i :: 0 <= i < |lines| ==> Blank(lines[i])
    ensures NonBlankLines(lines) == []
  {
  }

  /** The text yields no key exactly when it is blank: empty, spaces and line breaks only. */
  lemma NoKeysIffBlank(input: string)
    ensures ParseKeys(input) == [] <==> Blank(input)
  {
    var lines := Split(input, '\n');
    ParseKeysFollowLines(lines);
    if Blank(input) {
      SplitBlank(input, '\n');
      AllBlankNoLines(lines);
    } else {
      JoinSplit(input, '\n');
      if forall i :: 0 <= i < |lines| ==> Blank(lines[i]) {
        JoinBlank(lines, '\n');
        assert false;
      }
      var i :| 0 <= i < |lines| && !Blank(lines[i]);
      assert i in NonBlankLines(lines);
    }
  }

  // ------------------------------------------------------ the handlers

  /** What "Set participants" does. */
  datatype SetParticipantsOutcome =
    | MissingKeysAlert                      // alerts "At least one Public Key is required!"
    | InvalidKeysAlert                      // alerts "One or more Public Keys are invalid. ..."
    | Submitted(participants: seq<Pubkey>)  // sends `set` with these keys

  /**
   * `keys.map(key => new PublicKey(key))`, where `decode(key)` is `None`
   * when the constructor throws: all keys, or nothing.
   */
  function DecodeAll(keys: seq<string>, decode: string -> Option<Pubkey>): (r: Option<seq<Pubkey>>)
    ensures r.Some? <==> forall i :: 0 <= i < |keys| ==> decode(keys[i]).Some?
    ensures r.Some? ==> |r.value| == |keys| && forall i :: 0 <= i < |keys| ==> decode(keys[i]) == Some(r.value[i])
    decreases |keys|
  {
    if keys == [] then Some([])
    else match decode(keys[0])
      case None => None
      case Some(k) =>
        match DecodeAll(keys[1..], decode)
        case None => None
        case Some(ks) => Some([k] + ks)
  }

  /**
   * `handleSetParticipants`: a blank text raises the "at least one" alert;
   * one invalid key raises the "invalid" alert and nothing is sent; otherwise
   * the decoded keys are sent, one per parsed key and in the same order.
   */
  function HandleSetParticipants(input: string, decode: string -> Option<Pubkey>): (r: SetParticipantsOutcome)
    ensures r == MissingKeysAlert <==> Blank(input)
    ensures r == InvalidKeysAlert <==> !Blank(input) && exists k :: k in ParseKeys(input) && decode(k).None?
    ensures r.Submitted? ==>
      && |r.participants| == |ParseKeys(input)|
      && forall i :: 0 <= i < |r.participants| ==> decode(ParseKeys(input)[i]) == Some(r.participants[i])
  {
    var keys := ParseKeys(input);
    NoKeysIffBlank(input);
    if keys == [] then MissingKeysAlert
    else match DecodeAll(keys, decode)
      case None => InvalidKeysAlert
      case Some(publicKeys) => Submitted(publicKeys)
  }

  /**
   * A submitted list has one key per non-blank line, and the program stores
   * it exactly when there are at most `MaxLen` such lines: the page itself
   * does not enforce the bound. This assumes the page's `setMutation` calls
   * `prelib.rs`'s `set(nuser: Vec<Pubkey>)`, the shape the generated types
   * give `set`; the data-access layer as written calls `set(value: number)`,
   * the counter program's shape.
   */
  lemma SubmittedListOnLedger(input: string, decode: string -> Option<Pubkey>,
                              accounts: DrawProgram.Accounts, a: Pubkey)
    requires HandleSetParticipants(input, decode).Submitted?
    requires a in accounts
    ensures var sent := HandleSetParticipants(input, decode).participants;
      && |sent| == |NonBlankLines(Split(input, '\n'))|
      && (DrawProgram.Execute(accounts, DrawProgram.Set(a, sent)).Ok? <==> |sent| <= DrawProgram.MaxLen)
  {
    ParseKeysFollowLines(Split(input, '\n'));
    DrawProgram.SetStoresList(accounts, a, HandleSetParticipants(input, decode).participants);
  }

  /** What "Random draw!" does. */
  datatype DrawPromptOutcome = NoDraw | Draw(winners: int)

  /**
   * The "Random draw!" button. `answer` is what `window.prompt` returned
   * (`None` when cancelled), `count` the count on display, and `parseInt(s)`
   * is `None` where JavaScript's `parseInt` gives NaN. Nothing is sent for a
   * cancelled or empty answer, a non-number, or the count already shown.
   */
  function HandleDrawPrompt(answer: Option<string>, count: int, parseInt: string -> Option<int>): (r: DrawPromptOutcome)
    ensures r.Draw? <==> answer.Some? && answer.value != "" && parseInt(answer.value).Some? && parseInt(answer.value).value != count
    ensures r.Draw? ==> parseInt(answer.value) == Some(r.winners) && r.winners != count
  {
    if answer.None? || answer.value == "" then NoDraw
    else match parseInt(answer.value)
      case None => NoDraw
      case Some(n) => if n == count then NoDraw else Draw(n)
  }

  /** `accountQuery.data?.count ?? 0`: the count shown, 0 until the account is loaded. */
  function DisplayedCount(data: Option<DrawProgram.DrawAccount>): int {
    if data.Some? then data.value.count as int else 0
  }

  /**
   * Before the account is loaded the prompt treats the count as 0: an answer
   * of 0 sends nothing, and any other number is sent.
   */
  lemma PromptBeforeLoad(answer: string, parseInt: string -> Option<int>)
    requires answer != "" && parseInt(answer).Some?
    ensures HandleDrawPrompt(Some(answer), DisplayedCount(None), parseInt).Draw?
        <==> parseInt(answer).value != 0
  {
  }
}
