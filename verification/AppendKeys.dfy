/** Creating a multi-key channel and appending keys to it (controller/channel.go, lines 632-641 and
    972-1044). */
module AppendKeys {
  import opened Options
  import opened Text
  import opened MultiKey
  import Proofs = MultiKeyProofs

  function TrimmedSet(keys: seq<string>): set<string> {
    set k | 0 <= k < |keys| :: TrimSpace(keys[k])
  }

  /** The lines that are new keys: trimmed, not empty, not there already, not repeated. */
  function NewKeys(there: set<string>, lines: seq<string>): seq<string> {
    if lines == [] then []
    else
      var before := NewKeys(there, lines[..|lines| - 1]);
      var key := TrimSpace(lines[|lines| - 1]);
      if key == "" || key in there || key in before then before else before + [key]
  }

  function KeySet(keys: seq<string>): set<string> {
    set x | x in keys
  }

  method SeenKeys(existing: seq<string>) returns (seen: set<string>)
    ensures seen == TrimmedSet(existing) - {""}
  {
    seen := {};
    for i := 0 to |existing|
      invariant seen == TrimmedSet(existing[..i]) - {""}
    {
      var key := TrimSpace(existing[i]);
      assert TrimmedSet(existing[..i + 1]) == TrimmedSet(existing[..i]) + {key} by {
        assert forall k | 0 <= k < i :: existing[..i + 1][k] == existing[..i][k];
        assert existing[..i + 1][i] == existing[i];
      }
      if key != "" { seen := seen + {key}; }
    }
    assert existing[..|existing|] == existing;
  }

  /** The loops over the input with their `seen` set. */
  method CollectNewKeys(existing: seq<string>, input: string) returns (deduped: seq<string>)
    ensures deduped == NewKeys(TrimmedSet(existing), Split(input, '\n'))
  {
    var lines := Split(input, '\n');
    var seen := SeenKeys(existing);
    ghost var there := TrimmedSet(existing);
    deduped := [];
    for i := 0 to |lines|
      invariant deduped == NewKeys(there, lines[..i])
      invariant seen == (there - {""}) + KeySet(deduped)
    {
      var key := TrimSpace(lines[i]);
      assert lines[..i + 1][..i] == lines[..i];
      if key == "" { continue; }
      if key in seen { continue; }
      seen := seen + {key};
      assert KeySet(deduped + [key]) == KeySet(deduped) + {key};
      deduped := deduped + [key];
    }
    assert lines[..|lines|] == lines;
  }

  /** Distinct, not empty, and none of those that are there. */
  ghost predicate AllNew(there: set<string>, added: seq<string>) {
    && (forall i, j | 0 <= i < j < |added| :: added[i] != added[j])
    && (forall i | 0 <= i < |added| :: added[i] != "" && added[i] !in there)
  }

  lemma OneMoreNew(there: set<string>, added: seq<string>, key: string)
    requires AllNew(there, added) && key != "" && key !in there && key !in added
    ensures AllNew(there, added + [key])
  {
    forall i | 0 <= i < |added| ensures added[i] != key { }
  }

  lemma {:induction false} NewKeysDistinct(there: set<string>, lines: seq<string>)
    ensures AllNew(there, NewKeys(there, lines))
  {
    if lines == [] {
    } else {
      var before, key := NewKeys(there, lines[..|lines| - 1]), TrimSpace(lines[|lines| - 1]);
      NewKeysDistinct(there, lines[..|lines| - 1]);
      if key != "" && key !in there && key !in before { OneMoreNew(there, before, key); }
    }
  }

  lemma {:induction false} NewKeysCover(there: set<string>, lines: seq<string>, i: nat)
    requires i < |lines|
    ensures TrimSpace(lines[i]) == "" || TrimSpace(lines[i]) in there || TrimSpace(lines[i]) in NewKeys(there, lines)
  {
    var before, key := NewKeys(there, lines[..|lines| - 1]), TrimSpace(lines[|lines| - 1]);
    assert forall x | x in before :: x in before + [key];
    if i == |lines| - 1 {
      assert (before + [key])[|before|] == key;
    } else {
      NewKeysCover(there, lines[..|lines| - 1], i);
    }
  }

  lemma {:induction false} NewKeysAreLines(there: set<string>, lines: seq<string>, key: string)
    requires key in NewKeys(there, lines)
    ensures key in TrimmedSet(lines)
  {
    var rest := lines[..|lines| - 1];
    if key in NewKeys(there, rest) {
      NewKeysAreLines(there, rest, key);
      var k :| 0 <= k < |rest| && TrimSpace(rest[k]) == key;
      assert lines[k] == rest[k];
    }
  }

  /** The keys of the first lines come first. */
  lemma {:induction false} NewKeysInOrder(there: set<string>, lines: seq<string>, i: nat)
    requires i <= |lines|
    ensures NewKeys(there, lines[..i]) <= NewKeys(there, lines)
  {
    if i == |lines| {
      assert lines[..i] == lines;
    } else {
      assert lines[..|lines| - 1][..i] == lines[..i];
      NewKeysInOrder(there, lines[..|lines| - 1], i);
    }
  }

  /** The new keys are lines, trimmed and in their order; they are distinct, not empty, and equal to no
      existing key up to surrounding space; and every line that is not empty is, trimmed, an existing
      key or a new one. */
  lemma NewKeysAreNew(there: set<string>, lines: seq<string>)
    ensures var added := NewKeys(there, lines);
            && AllNew(there, added)
            && (forall i | 0 <= i < |lines| ::
                  TrimSpace(lines[i]) == "" || TrimSpace(lines[i]) in there || TrimSpace(lines[i]) in added)
            && (forall key | key in added :: key in TrimmedSet(lines))
            && (forall i | 0 <= i <= |lines| :: NewKeys(there, lines[..i]) <= added)
  {
    NewKeysDistinct(there, lines);
    forall key | key in NewKeys(there, lines) ensures key in TrimmedSet(lines) {
      NewKeysAreLines(there, lines, key);
    }
    forall i | 0 <= i <= |lines| ensures NewKeys(there, lines[..i]) <= NewKeys(there, lines) {
      NewKeysInOrder(there, lines, i);
    }
    forall i | 0 <= i < |lines|
      ensures TrimSpace(lines[i]) == "" || TrimSpace(lines[i]) in there || TrimSpace(lines[i]) in NewKeys(there, lines)
    {
      NewKeysCover(there, lines, i);
    }
  }

  /** The text is taken for a JSON array but is none. */
  predicate Broken(json: Json, text: string) {
    "[" <= TrimSpace(text) && json(TrimSpace(text)).None?
  }

  /** The keys to append to; of a broken array there are none. */
  function ExistingKeys(json: Json, text: string): seq<string> {
    var trimmed := TrimSpace(text);
    if "[" <= trimmed then if json(trimmed).Some? then json(trimmed).value else []
    else Split(Trim(Only('\n'), text), '\n')
  }

  /** The keys that are appended. */
  function Appendix(json: Json, row: Row, input: string): seq<string> {
    NewKeys(TrimmedSet(ExistingKeys(json, row.text)), Split(input, '\n'))
  }

  /** The row after appending. */
  function Appended(json: Json, row: Row, input: string): Row {
    var text := if row.text == "" then input else Join(ExistingKeys(json, row.text) + Appendix(json, row, input), '\n');
    Saved(json, row, row.(text := text))
  }

  lemma MoreRecords(keys: seq<string>, info: Info, more: seq<string>)
    requires IndicesBelow(info, |keys|)
    ensures Records(keys + more, info) == Records(keys, info) + EnabledRecords(more)
  {
  }

  lemma NothingNew(keys: seq<string>, more: seq<string>)
    requires Join(keys + more, '\n') == "" && forall i | 0 <= i < |more| :: more[i] != ""
    ensures more == [] && (keys == [] || keys == [""])
  {
    if keys + more != [] {
      Proofs.JoinedEmpty(keys + more);
      assert (keys + more)[|keys + more| - 1] == "";
    }
  }

  /** Appending leaves the existing records alone and adds the new keys as enabled records without
      disable time or reason, if and only if the old keys with the new ones are read back. */
  lemma AppendRefines(json: Json, row: Row, input: string)
    requires row.text != "" && !Broken(json, row.text) && IndicesBelow(row.info, |KeysOf(json, row.text)|)
    ensures var keys := KeysOf(json, row.text);
            var more := Appendix(json, row, input);
            && Fits(json, Appended(json, row, input))
            && (RecordsOf(json, Appended(json, row, input)) == RecordsOf(json, row) + EnabledRecords(more)
                <==> ReadsBack(json, keys + more) || (keys == [""] && more == []))
  {
    var keys, more := KeysOf(json, row.text), Appendix(json, row, input);
    assert ExistingKeys(json, row.text) == keys;
    NewKeysAreNew(TrimmedSet(keys), Split(input, '\n'));
    var text := Join(keys + more, '\n');
    MoreRecords(keys, row.info, more);
    Proofs.SavedRecords(json, row, row.(text := text));
    if text == "" {
      NothingNew(keys, more);
      assert keys + more == keys;
    } else {
      Proofs.KeysReadBackExact(json, keys + more);
      Proofs.KeysInRecords(keys + more, row.info);
      Proofs.KeysInRecords(KeysOf(json, text), row.info);
    }
  }

  /** From a broken array, appending any key removes all the others: the new text holds the new keys
      alone, and shows exactly them if and only if they are read back. */
  lemma BrokenArrayLosesKeys(json: Json, row: Row, input: string)
    requires Broken(json, row.text)
    ensures var more := Appendix(json, row, input);
            && (more == [] ==> Appended(json, row, input).text == row.text)
            && (more != [] ==> Appended(json, row, input).text == Join(more, '\n'))
            && (more != [] ==> (KeysOf(json, Appended(json, row, input).text) == more <==> ReadsBack(json, more)))
  {
    var more := Appendix(json, row, input);
    NewKeysAreNew(TrimmedSet(ExistingKeys(json, row.text)), Split(input, '\n'));
    assert ExistingKeys(json, row.text) + more == more;
    Proofs.SavedRecords(json, row, row.(text := Join(more, '\n')));
    Proofs.KeysReadBackExact(json, more);
    if more != [] { NotEmptyJoined(more); }
  }

  lemma NotEmptyJoined(keys: seq<string>)
    requires keys != [] && keys[0] != ""
    ensures Join(keys, '\n') != ""
  {
  }

  // ---------- Creating the channel ----------

  /** The lines that are not empty, trimmed: a line of white space becomes an empty key. */
  function CleanKeys(lines: seq<string>): seq<string> {
    if lines == [] then []
    else
      var last := lines[|lines| - 1];
      CleanKeys(lines[..|lines| - 1]) + if last == "" then [] else [TrimSpace(last)]
  }

  /** The channel that is created from the lines of the input. */
  function Created(input: string): Row {
    var keys := CleanKeys(Split(input, '\n'));
    Row(Join(keys, '\n'), |keys|, NO_INFO)
  }

  method CreateKeys(input: string) returns (row: Row)
    ensures row == Created(input)
  {
    var lines := Split(input, '\n');
    var keys: seq<string> := [];
    for i := 0 to |lines|
      invariant keys == CleanKeys(lines[..i])
    {
      assert lines[..i + 1][..i] == lines[..i];
      if lines[i] == "" { continue; }
      keys := keys + [TrimSpace(lines[i])];
    }
    assert lines[..|lines|] == lines;
    return Row(Join(keys, '\n'), |keys|, NO_INFO);
  }

  lemma {:induction false} CleanKeysFree(lines: seq<string>)
    requires Free(lines, '\n')
    ensures Free(CleanKeys(lines), '\n')
  {
    if lines == [] {
    } else {
      CleanKeysFree(lines[..|lines| - 1]);
      TrimShape(Space, lines[|lines| - 1]);
    }
  }

  /** Line by line, in order: an empty line gives no key, any other its trimmed form. */
  lemma {:induction false} CleanKeysByLine(lines: seq<string>, more: seq<string>, line: string)
    ensures CleanKeys(lines + more) == CleanKeys(lines) + CleanKeys(more)
    ensures CleanKeys([line]) == if line == "" then [] else [TrimSpace(line)]
  {
    if more == [] {
      assert lines + more == lines;
    } else {
      assert (lines + more)[..|lines + more| - 1] == lines + more[..|more| - 1];
      CleanKeysByLine(lines, more[..|more| - 1], line);
    }
    assert [line][..0] == [];
  }

  /** As many keys are read as were stored: if the text is a JSON array, it has as many elements, or
      none; otherwise the outer keys are not empty, or there is only an empty one. */
  predicate SizeReads(json: Json, keys: seq<string>) {
    keys == [] ||
    var text := TrimSpace(Join(keys, '\n'));
    if "[" <= text && json(text).Some? then json(text).value == [] || |json(text).value| == |keys|
    else keys == [""] || (keys[0] != "" && keys[|keys| - 1] != "")
  }

  lemma LinesCount(keys: seq<string>)
    requires keys != [] && Free(keys, '\n') && Join(keys, '\n') != ""
    ensures |Split(Trim(Only('\n'), Join(keys, '\n')), '\n')| == |keys| <==> keys[0] != "" && keys[|keys| - 1] != ""
  {
    SplitJoin(keys, '\n');
    TrimCount(Join(keys, '\n'), '\n');
    if |keys| > 1 { JoinTrimmed(keys, '\n'); }
  }

  lemma SizeRead(json: Json, keys: seq<string>)
    requires Free(keys, '\n')
    ensures Fits(json, Row(Join(keys, '\n'), |keys|, NO_INFO)) <==> SizeReads(json, keys)
  {
    var text := Join(keys, '\n');
    if keys == [] {
    } else if text == "" {
      Proofs.JoinedEmpty(keys);
    } else {
      LinesCount(keys);
    }
  }

  /** A new channel has one enabled key for each line that is not empty, if and only if these keys
      are read back; and its size is right if and only if as many keys are read. */
  lemma CreatedExact(json: Json, input: string)
    ensures var keys := CleanKeys(Split(input, '\n'));
            && (RecordsOf(json, Created(input)) == EnabledRecords(keys) <==> ReadsBack(json, keys))
            && (Fits(json, Created(input)) <==> SizeReads(json, keys))
  {
    var keys := CleanKeys(Split(input, '\n'));
    Proofs.KeysReadBackExact(json, keys);
    Proofs.KeysInRecords(KeysOf(json, Created(input).text), NO_INFO);
    assert KeysIn(EnabledRecords(keys)) == keys;
    SplitFree(input, '\n');
    CleanKeysFree(Split(input, '\n'));
    SizeRead(json, keys);
  }

  lemma OneLine(text: string)
    requires text != "" && Trimmed(Space, text) && '\n' !in text
    ensures Created(text) == Row(text, 1, NO_INFO) && TrimSpace(text) == text
  {
    SplitPlain(text, '\n');
    TrimFixed(Space, text);
    assert [text][..0] == [];
    assert CleanKeys([text]) == [text];
  }

  /** A JSON array of several keys on one line is stored as one key and read as all of them; disabling
      all keys then disables the first alone. */
  lemma PastedArray(json: Json, text: string, keys: seq<string>)
    requires "[" <= text && Trimmed(Space, text) && '\n' !in text && json(text) == Some(keys) && |keys| > 1
    ensures Created(text).size == 1 && RecordsOf(json, Created(text)) == EnabledRecords(keys)
    ensures RecordsOf(json, After(json, Created(text), DisableAllKeys))
         == EnabledRecords(keys)[0 := Rec(keys[0], MANUALLY_DISABLED, None, None)]
  {
    OneLine(text);
    var row := Created(text);
    assert Records(keys, NO_INFO) == EnabledRecords(keys);
    Proofs.SavedInfo(json, row, Proofs.Disabled(NO_INFO, 1));
    forall i | 0 <= i < |keys|
      ensures Records(keys, Proofs.Disabled(NO_INFO, 1))[i]
           == EnabledRecords(keys)[0 := Rec(keys[0], MANUALLY_DISABLED, None, None)][i]
    {
      Proofs.DisabledAt(keys, NO_INFO, 1, i);
    }
    assert 0 in DisabledAll(NO_INFO.status, 1);
  }

  lemma JoinThree(a: string, b: string, c: string)
    ensures Join([a, b, c], '\n') == a + ['\n'] + (b + ['\n'] + c)
    ensures Join([b, c], '\n') == b + ['\n'] + c
  {
    assert [b, c][1..] == [c] && [a, b, c][1..] == [b, c];
    assert Join([b, c], '\n') == b + ['\n'] + Join([c], '\n');
    assert Join([a, b, c], '\n') == a + ['\n'] + Join([b, c], '\n');
  }

  lemma CleanThree(a: string, b: string, c: string)
    requires a != "" && b != "" && c != ""
    ensures CleanKeys([a, b, c]) == [TrimSpace(a), TrimSpace(b), TrimSpace(c)]
  {
    assert [a, b, c][..2] == [a, b] && [a, b][..1] == [a] && [a][..0] == [];
    assert CleanKeys([a]) == [TrimSpace(a)] && CleanKeys([a, b]) == [TrimSpace(a), TrimSpace(b)];
  }

  lemma BlankLine()
    ensures Created("a\n \nb") == Row("a\n\nb", 3, NO_INFO)
  {
    JoinThree("a", " ", "b");
    assert "a" + ['\n'] + (" " + ['\n'] + "b") == "a\n \nb";
    SplitJoin(["a", " ", "b"], '\n');
    CleanThree("a", " ", "b");
    assert TrimSpace("a") == "a" && TrimSpace("b") == "b";
    assert TrimSpace(" ") == "" by { assert " "[1..] == "" && TrimLeft(Space, " ") == ""; }
    JoinThree("a", "", "b");
    assert "a" + ['\n'] + ("" + ['\n'] + "b") == "a\n\nb";
  }

  lemma BlankLineKeys(json: Json)
    ensures KeysOf(json, "a\n\nb") == ["a", "", "b"] && KeysOf(json, "\nb") == ["b"]
  {
    JoinThree("a", "", "b");
    assert "a" + ['\n'] + ("" + ['\n'] + "b") == "a\n\nb";
    assert TrimSpace("a\n\nb") == "a\n\nb";
    Proofs.KeysReadBackExact(json, ["a", "", "b"]);
    assert "\nb"[1..] == "b";
    assert TrimLeft(Only('\n'), "\nb") == "b" && TrimLeft(Space, "\nb") == "b";
    assert TrimSpace("\nb") == "b" && Trim(Only('\n'), "\nb") == "b";
    SplitPlain("b", '\n');
  }

  lemma BlankLineDisabled(json: Json)
    ensures After(json, Row("a\n\nb", 3, NO_INFO), DisableKey(2))
       == Row("a\n\nb", 3, NO_INFO.(status := map[2 := MANUALLY_DISABLED]))
  {
    BlankLineKeys(json);
    Proofs.CountIsKeys(json, "a\n\nb");
    assert (map i | i in map[2 := MANUALLY_DISABLED] && i < 3 :: map[2 := MANUALLY_DISABLED][i])
      == map[2 := MANUALLY_DISABLED];
  }

  lemma OneRecord(key: string, info: Info)
    ensures Records([key], info) == [RecordAt(key, info, 0)]
  {
  }

  lemma DeletedRecords(json: Json, row: Row, index: int, kept: Kept)
    requires 0 <= index < row.size && WithoutKey(KeysOf(json, row.text), row.info, index) == kept
    requires kept.keys != [] && Join(kept.keys, '\n') != ""
    ensures RecordsOf(json, After(json, row, DeleteKey(index)))
       == Records(KeysOf(json, Join(kept.keys, '\n')), kept.info)
  {
    Proofs.SavedRecords(json, row, Row(Join(kept.keys, '\n'), |kept.keys|, kept.info));
  }

  lemma BlankLineDeleted(json: Json, info: Info)
    requires info == NO_INFO.(status := map[2 := MANUALLY_DISABLED])
    ensures RecordsOf(json, After(json, Row("a\n\nb", 3, info), DeleteKey(0))) == EnabledRecords(["b"])
  {
    BlankLineKeys(json);
    BlankLineKept(info);
    var kept := WithoutKey(["a", "", "b"], info, 0);
    DeletedRecords(json, Row("a\n\nb", 3, info), 0, kept);
    OneRecord("b", kept.info);
  }

  lemma BlankLineKept(info: Info)
    requires info == NO_INFO.(status := map[2 := MANUALLY_DISABLED])
    ensures var kept := WithoutKey(["a", "", "b"], info, 0);
            && kept.keys == ["", "b"] && Join(kept.keys, '\n') == "\nb"
               && RecordAt("b", kept.info, 0) == Rec("b", ENABLED, None, None)
  {
    var keys := ["a", "", "b"];
    assert keys[..2] == ["a", ""] && keys[..2][..1] == ["a"] && keys[..2][..1][..0] == [];
    assert WithoutKey(["a"], info, 0) == Kept([], NO_INFO);
    assert WithoutKey(["a", ""], info, 0) == Kept([""], NO_INFO);
    assert ["", "b"][1..] == ["b"] && Join(["b"], '\n') == "b";
  }

  lemma BlankLineRecords(info: Info)
    requires info == NO_INFO.(status := map[2 := MANUALLY_DISABLED])
    ensures Records(["a", "", "b"], info) == EnabledRecords(["a", ""]) + [Rec("b", MANUALLY_DISABLED, None, None)]
  {
  }

  /** A channel with a blank line between two keys: deleting the first key loses the empty one as
      well, and the other, which was disabled by hand, is enabled. */
  lemma BlankLineLosesKey(json: Json)
    ensures var disabled := After(json, Created("a\n \nb"), DisableKey(2));
            && RecordsOf(json, disabled) == EnabledRecords(["a", ""]) + [Rec("b", MANUALLY_DISABLED, None, None)]
            && RecordsOf(json, After(json, disabled, DeleteKey(0))) == EnabledRecords(["b"])
  {
    var info := NO_INFO.(status := map[2 := MANUALLY_DISABLED]);
    BlankLine();
    BlankLineDisabled(json);
    BlankLineDeleted(json, info);
    BlankLineKeys(json);
    BlankLineRecords(info);
  }
}
