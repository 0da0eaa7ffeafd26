/** What the inventory normaliser promises, said without its own functions: the tables of names and ranks, the two
    orders, cleaned text by its words, and what becomes of a value (`common/fleet-service-inventory.js`). */
module InventoryLaws {
  import opened Prelude
  import opened Utf8
  import opened Inventory

  // ---------- The tables ----------

  /** The sources as they rank, with their names and the type of their items. */
  const SOURCES: seq<(Source, string, Kind)> := [
    (Systemd, "systemd", Service), (Openrc, "openrc", Service), (Sysv, "sysv", Service),
    (Docker, "docker", Container), (Compose, "compose", Container),
    (Supervisor, "supervisor", Process), (Pm2, "pm2", Process)
  ]

  /** The types in the order of the result, with their names. */
  const KINDS: seq<(Kind, string)> := [(Service, "service"), (Container, "container"), (Process, "process")]

  const STATES: seq<(State, string)> := [
    (Running, "running"), (Stopped, "stopped"), (State.Failed, "failed"), (Starting, "starting"),
    (Restarting, "restarting"), (Paused, "paused"), (Unknown, "unknown")
  ]

  lemma SourceTable(s: Source)
    ensures SourceRank(s) < |SOURCES| && SOURCES[SourceRank(s)] == (s, SourceName(s), KindOf(s))
    ensures forall name :: SourceNamed(name) == Some(s) <==> name == SourceName(s)
  {
    assert SOURCES[0] == (Systemd, "systemd", Service) && SOURCES[1] == (Openrc, "openrc", Service);
    assert SOURCES[2] == (Sysv, "sysv", Service) && SOURCES[3] == (Docker, "docker", Container);
    assert SOURCES[4] == (Compose, "compose", Container) && SOURCES[5] == (Supervisor, "supervisor", Process);
    assert SOURCES[6] == (Pm2, "pm2", Process);
    forall name ensures SourceNamed(name) == Some(s) <==> name == SourceName(s) { SourcesAreWords(s); }
  }

  lemma KindTable(i: Item)
    ensures GroupRank(i) < |KINDS| && KINDS[GroupRank(i)] == (KindOf(i.source), KindName(KindOf(i.source)))
  {
  }

  lemma StateTable(s: State)
    ensures exists k :: 0 <= k < |STATES| && STATES[k] == (s, StateName(s))
    ensures forall name :: StateNamed(name) == Some(s) <==> name == StateName(s)
  {
    assert STATES[0] == (Running, "running") && STATES[1] == (Stopped, "stopped");
    assert STATES[2] == (State.Failed, "failed") && STATES[3] == (Starting, "starting");
    assert STATES[4] == (Restarting, "restarting") && STATES[5] == (Paused, "paused");
    assert STATES[6] == (Unknown, "unknown");
  }

  const AUTOSTARTS: seq<(Autostart, string)> := [
    (Autostart.Enabled, "enabled"), (Autostart.Disabled, "disabled"), (Static, "static"), (Masked, "masked"),
    (NotKnown, "unknown")
  ]

  /** The words for each way of starting. */
  lemma AutostartTable(word: string)
    ensures forall k :: 0 <= k < |AUTOSTARTS| ==>
              AutostartName(AUTOSTARTS[k].0) == AUTOSTARTS[k].1 && AutostartOf(AUTOSTARTS[k].1) == AUTOSTARTS[k].0
    ensures var a := AutostartOf(word);
            && (a == Autostart.Enabled <==> word in {"enabled", "enabled-runtime", "linked", "linked-runtime", "always",
                                                     "unless-stopped", "on-failure"})
            && (a == Autostart.Disabled <==> word in {"disabled", "no", "none", "off"})
            && (a == Static <==> word in {"static", "indirect", "generated", "transient"})
            && (a == Masked <==> word == "masked")
  {
  }

  // ---------- The two orders ----------

  /** The texts agree up to `k`, where the first ends or has the smaller character. */
  predicate DifferAt(a: string, b: string, k: int) {
    0 <= k <= |a| && k < |b| && a[..k] == b[..k] && (k == |a| || a[k] < b[k])
  }

  /** Texts are ordered by the first character in which they differ; a beginning comes first. */
  lemma {:induction false} LessIff(a: string, b: string)
    ensures Less(a, b) <==> exists k :: DifferAt(a, b, k)
  {
    if a != "" && b != "" && a[0] == b[0] {
      LessIff(a[1..], b[1..]);
      assert a == [a[0]] + a[1..] && b == [b[0]] + b[1..];
      if k :| DifferAt(a, b, k) {
        assert a[1..][..k - 1] == a[..k][1..] && b[1..][..k - 1] == b[..k][1..];
        assert DifferAt(a[1..], b[1..], k - 1);
      }
      if k :| DifferAt(a[1..], b[1..], k) {
        assert a[..k + 1] == [a[0]] + a[1..][..k] && b[..k + 1] == [b[0]] + b[1..][..k];
        assert DifferAt(a, b, k + 1);
      }
    } else if b != "" {
      assert a == "" || a[0] < b[0] ==> DifferAt(a, b, 0);
    }
  }

  /** The position of a source in the list. */
  predicate Earlier(a: Source, b: Source) {
    exists j, k :: 0 <= j < k < |SOURCES| && SOURCES[j].0 == a && SOURCES[k].0 == b
  }

  lemma EarlierIff(a: Source, b: Source)
    ensures Earlier(a, b) <==> SourceRank(a) < SourceRank(b)
  {
    SourceTable(a);
    SourceTable(b);
    forall j, k | 0 <= j < k < |SOURCES| && SOURCES[j].0 == a && SOURCES[k].0 == b
      ensures SourceRank(a) < SourceRank(b)
    {
      SourceTable(SOURCES[j].0);
    }
  }

  /** What is known of an item. */
  function Known(i: Item): set<string> {
    (if i.state != Unknown then {"state"} else {}) + (if i.autostart != NotKnown then {"autostart"} else {})
    + if i.description != "" then {"description"} else {}
  }

  lemma ScoreIsKnown(i: Item)
    ensures Score(i) == |Known(i)|
  {
    var a := if i.state != Unknown then {"state"} else {};
    var b := if i.autostart != NotKnown then {"autostart"} else {};
    var c := if i.description != "" then {"description"} else {};
    assert a !! b && (a + b) !! c;
    assert |a + b| == |a| + |b| && |a + b + c| == |a + b| + |c|;
  }

  /** Of two duplicates the one of the earlier source is better, then the one of which more is known, then the
      one whose JSON comes first. */
  lemma BetterIff(a: Item, b: Item, json: Item -> string)
    ensures IsBetterDuplicate(a, b, json) <==>
              || Earlier(a.source, b.source)
              || (a.source == b.source
                  && (|Known(a)| > |Known(b)| || (|Known(a)| == |Known(b)| && Less(json(a), json(b)))))
  {
    EarlierIff(a.source, b.source);
    ScoreIsKnown(a);
    ScoreIsKnown(b);
    hide Earlier, Known, Less;
  }

  /** Services come first, then containers, then processes; within a type the names decide, without case first,
      and last the sources. */
  lemma BeforeIff(a: Item, b: Item, lower: string -> string)
    ensures var x, y := KindOf(a.source), KindOf(b.source);
            Before(a, b, lower) <==>
              || (x == Service && y != Service) || (x == Container && y == Process)
              || (x == y
                  && (|| Less(lower(a.name), lower(b.name))
                      || (lower(a.name) == lower(b.name) && Less(a.name, b.name))
                      || (a.name == b.name && Earlier(a.source, b.source))))
  {
    EarlierIff(a.source, b.source);
    hide Earlier, Less;
  }

  /** Two items stand for the same thing exactly if they have the same type and the same name without case. */
  lemma KeyIff(a: Item, b: Item, lower: string -> string)
    ensures Key(a, lower) == Key(b, lower) <==>
              KindOf(a.source) == KindOf(b.source) && lower(a.name) == lower(b.name)
  {
  }

  /** A result has no more than 256 items and 65536 bytes as a JSON array. */
  lemma FitsIff(items: seq<Item>, encoded: Item -> seq<byte>)
    ensures Fits(items, encoded) <==> |items| <= 256 && 2 + Commas(items) + Total(items, encoded) <= 65536
  {
    ElementsLength(items, encoded);
  }

  function Commas(items: seq<Item>): int { if items == [] then 0 else |items| - 1 }

  function Total(items: seq<Item>, encoded: Item -> seq<byte>): nat {
    if items == [] then 0 else |encoded(items[0])| + Total(items[1..], encoded)
  }

  lemma {:induction false} ElementsLength(items: seq<Item>, encoded: Item -> seq<byte>)
    ensures |Elements(items, encoded)| == Commas(items) + Total(items, encoded)
  {
    if |items| == 1 {
      assert Total(items[1..], encoded) == 0;
    } else if items != [] {
      var n := |items| - 1;
      ElementsLength(items[..n], encoded);
      TotalMore(items[..n], items[n], encoded);
      assert items == items[..n] + [items[n]];
    }
  }

  lemma {:induction false} TotalMore(items: seq<Item>, item: Item, encoded: Item -> seq<byte>)
    ensures Total(items + [item], encoded) == Total(items, encoded) + |encoded(item)|
  {
    if items == [] {
      assert items + [item] == [item] && [item][1..] == [];
    } else {
      assert (items + [item])[1..] == items[1..] + [item];
      TotalMore(items[1..], item, encoded);
    }
  }

  // ---------- Cleaned text ----------

  /** A character below 32, number 127, or a space. */
  predicate IsBlank(c: char, isSpace: char -> bool) { c as int < 32 || c as int == 127 || isSpace(c) }

  /** The words of a text: what stands between control characters and spaces. */
  function Words(text: string, isSpace: char -> bool): (words: seq<string>) {
    if text == "" then []
    else
      var n := |text| - 1;
      var words := Words(text[..n], isSpace);
      if IsBlank(text[n], isSpace) then words
      else if n == 0 || words == [] || IsBlank(text[n - 1], isSpace) then words + [[text[n]]]
      else words[..|words| - 1] + [words[|words| - 1] + [text[n]]]
  }

  function Spaced(words: seq<string>): string {
    if words == [] then ""
    else if |words| == 1 then words[0]
    else Spaced(words[..|words| - 1]) + " " + words[|words| - 1]
  }

  function BlankIf(b: bool): string { if b then " " else "" }

  /** The words with a blank between every two, and one more where the text begins or ends with blanks. */
  predicate IsSpacedText(text: string, c: string, words: seq<string>, isSpace: char -> bool) {
    if text == "" then c == "" && words == []
    else
      var first, last := IsBlank(text[0], isSpace), IsBlank(text[|text| - 1], isSpace);
      if words == [] then c == " " && first && last
      else
        && c == BlankIf(first) + Spaced(words) + BlankIf(last)
        && Spaced(words) != "" && Spaced(words)[0] != ' ' && Spaced(words)[|Spaced(words)| - 1] != ' '
  }

  lemma {:induction false} CollapseIsSpaced(text: string, isSpace: char -> bool)
    requires isSpace(' ')
    ensures IsSpacedText(text, Collapse(StripControl(text), isSpace), Words(text, isSpace), isSpace)
  {
    hide IsSpacedText, BlankIf, StripControl, Collapse, CollapseChar, Words;
    if text != "" {
      var n := |text| - 1;
      var front, x := text[..n], text[n];
      CollapseIsSpaced(front, isSpace);
      CollapseUnfold(front, x, isSpace);
      WordsUnfold(front, x, isSpace);
      assert text == front + [x];
      var c := Collapse(StripControl(front), isSpace);
      if IsBlank(x, isSpace) {
        BlankMore(front, c, Words(front, isSpace), x, if IsControl(x) then ' ' else x, isSpace);
      } else {
        WordMore(front, c, Words(front, isSpace), x, isSpace);
      }
    } else {
      NothingIsSpaced(isSpace);
    }
  }

  lemma NothingIsSpaced(isSpace: char -> bool)
    ensures IsSpacedText("", Collapse(StripControl(""), isSpace), Words("", isSpace), isSpace)
  {
  }

  lemma CollapseUnfold(front: string, x: char, isSpace: char -> bool)
    ensures Collapse(StripControl(front + [x]), isSpace)
        == CollapseChar(Collapse(StripControl(front), isSpace), if IsControl(x) then ' ' else x, isSpace)
  {
    var y := if IsControl(x) then ' ' else x;
    StripMore(front, x);
    hide StripControl;
    CollapseMore(StripControl(front), y, isSpace);
  }

  lemma StripMore(front: string, x: char)
    ensures StripControl(front + [x]) == StripControl(front) + [if IsControl(x) then ' ' else x]
  {
    assert (front + [x])[..|front|] == front;
  }

  lemma WordsUnfold(front: string, x: char, isSpace: char -> bool)
    ensures Words(front + [x], isSpace)
        == var words := Words(front, isSpace);
           if IsBlank(x, isSpace) then words
           else if front == "" || words == [] || IsBlank(front[|front| - 1], isSpace) then words + [[x]]
           else words[..|words| - 1] + [words[|words| - 1] + [x]]
  {
    var text := front + [x];
    assert text[..|front|] == front && (front != "" ==> text[|front| - 1] == front[|front| - 1]);
  }

  lemma CollapseMore(front: string, y: char, isSpace: char -> bool)
    ensures Collapse(front + [y], isSpace) == CollapseChar(Collapse(front, isSpace), y, isSpace)
  {
    assert (front + [y])[..|front|] == front;
  }

  lemma BlankMore(front: string, c: string, words: seq<string>, x: char, y: char, isSpace: char -> bool)
    requires IsSpacedText(front, c, words, isSpace) && IsBlank(x, isSpace) && isSpace(y)
    ensures IsSpacedText(front + [x], CollapseChar(c, y, isSpace), words, isSpace)
  {
    hide Spaced;
    if words != [] {
      var first := BlankIf(IsBlank(front[0], isSpace));
      assert first + Spaced(words) + " " == first + Spaced(words) + "" + " ";
    }
  }

  lemma WordMore(front: string, c: string, words: seq<string>, x: char, isSpace: char -> bool)
    requires IsSpacedText(front, c, words, isSpace) && !IsBlank(x, isSpace) && isSpace(' ')
    ensures var more := if front == "" || words == [] || IsBlank(front[|front| - 1], isSpace) then words + [[x]]
                        else words[..|words| - 1] + [words[|words| - 1] + [x]];
            IsSpacedText(front + [x], CollapseChar(c, x, isSpace), more, isSpace)
  {
    if words == [] {
      assert words + [[x]] == [[x]] && BlankIf(false) == "";
      assert Spaced([[x]]) == [x];
    } else if IsBlank(front[|front| - 1], isSpace) {
      WordFollows(front, c, words, x, isSpace);
    } else {
      WordGrows(front, c, words, x, isSpace);
    }
    hide Spaced, CollapseChar;
  }

  lemma WordFollows(front: string, c: string, words: seq<string>, x: char, isSpace: char -> bool)
    requires IsSpacedText(front, c, words, isSpace) && !IsBlank(x, isSpace) && isSpace(' ')
    requires words != [] && IsBlank(front[|front| - 1], isSpace)
    ensures IsSpacedText(front + [x], CollapseChar(c, x, isSpace), words + [[x]], isSpace)
  {
    SpacedMore(words, [x]);
    hide Spaced;
    var first := BlankIf(IsBlank(front[0], isSpace));
    assert first + Spaced(words) + " " + [x] == first + (Spaced(words) + " " + [x]) + "";
  }

  lemma WordGrows(front: string, c: string, words: seq<string>, x: char, isSpace: char -> bool)
    requires IsSpacedText(front, c, words, isSpace) && !IsBlank(x, isSpace) && isSpace(' ')
    requires words != [] && !IsBlank(front[|front| - 1], isSpace)
    ensures IsSpacedText(front + [x], CollapseChar(c, x, isSpace),
                         words[..|words| - 1] + [words[|words| - 1] + [x]], isSpace)
  {
    var n := |words| - 1;
    var more := words[..n] + [words[n] + [x]];
    SpacedGrows(words[..n], words[n], x);
    assert words[..n] + [words[n]] == words;
    hide Spaced;
    assert CollapseChar(c, x, isSpace) == c + [x];
    hide CollapseChar;
    OneLetterMore(c, BlankIf(IsBlank(front[0], isSpace)), Spaced(words), Spaced(more), x);
    assert BlankIf(IsBlank(x, isSpace)) == "";
    hide BlankIf;
    var text := front + [x];
    assert text[0] == front[0] && text[|text| - 1] == x && more != [];
  }

  lemma OneLetterMore(c: string, first: string, spaced: string, more: string, x: char)
    requires c == first + spaced + "" && more == spaced + [x] && spaced != "" && spaced[0] != ' ' && x != ' '
    ensures c + [x] == first + more + "" && more != "" && more[0] != ' ' && more[|more| - 1] != ' '
  {
  }

  lemma SpacedMore(words: seq<string>, word: string)
    ensures Spaced(words + [word]) == if words == [] then word else Spaced(words) + " " + word
  {
    assert (words + [word])[..|words|] == words;
  }

  lemma SpacedGrows(front: seq<string>, last: string, c: char)
    ensures Spaced(front + [last + [c]]) == Spaced(front + [last]) + [c]
  {
    SpacedMore(front, last);
    SpacedMore(front, last + [c]);
    hide Spaced;
    if front != [] { Associates(Spaced(front), " ", last, [c]); }
  }

  lemma Associates(a: string, b: string, c: string, d: string)
    ensures a + b + (c + d) == a + b + c + d
  {
  }

  /** Cleaned, a text is its words with a blank between every two, cut to the length. */
  lemma CleanTextIsWords(text: string, isSpace: char -> bool, maxLength: nat)
    requires isSpace(' ')
    ensures var spaced := Spaced(Words(text, isSpace));
            CleanText(text, isSpace, maxLength) == spaced[..Min(maxLength, |spaced|)]
  {
    hide Words, Spaced, IsSpacedText;
    CollapseIsSpaced(text, isSpace);
    TrimSpaced(text, Collapse(StripControl(text), isSpace), Words(text, isSpace), isSpace);
    hide Collapse, StripControl, Trim;
  }

  lemma TrimSpaced(text: string, c: string, words: seq<string>, isSpace: char -> bool)
    requires IsSpacedText(text, c, words, isSpace)
    ensures Trim(c) == Spaced(words)
  {
    if text == "" || words == [] {
      NoWords(isSpace);
    } else {
      var first := BlankIf(IsBlank(text[0], isSpace));
      assert c[|first|..|first| + |Spaced(words)|] == Spaced(words);
    }
    hide Spaced;
  }

  lemma NoWords(isSpace: char -> bool)
    ensures Spaced([]) == ""
  {
  }

  // ---------- What becomes of a value ----------

  function Cleaned(text: string, isSpace: char -> bool, maxLength: nat): string {
    var spaced := Spaced(Words(text, isSpace));
    spaced[..Min(maxLength, |spaced|)]
  }

  /** A value becomes an item exactly if its source is one of the list, its type is that of the source, and it has
      a name; then every field is the cleaned one, and words that mean nothing become unknown. */
  lemma NormalizeItemIff(value: Value, lower: string -> string, isSpace: char -> bool, stateOf: string -> State,
                         item: Item)
    requires isSpace(' ')
    ensures NormalizeItem(value, lower, isSpace, stateOf) == Some(item) <==>
              && value.Value?
              && (lower(Cleaned(value.source, isSpace, 32)), lower(Cleaned(value.kind, isSpace, 32)))
                  == (SOURCES[SourceRank(item.source)].1, KINDS[GroupRank(item)].1)
              && item.name == Cleaned(value.name, isSpace, 256) && item.name != ""
              && (var word := lower(Cleaned(value.state, isSpace, 128));
                  && (word == "" ==> item.state == Unknown)
                  && (forall k :: 0 <= k < |STATES| && word == STATES[k].1 ==> item.state == STATES[k].0)
                  && (word != "" && (forall k :: 0 <= k < |STATES| ==> word != STATES[k].1) ==>
                        item.state == stateOf(word)))
              && item.autostart == AutostartOf(lower(Cleaned(value.autostart, isSpace, 64)))
              && item.description == Cleaned(value.description, isSpace, 512)
              && item.sourceState == Cleaned(value.sourceState, isSpace, 128)
  {
    if value.Value? {
      CleanTextIsWords(value.source, isSpace, 32);
      CleanTextIsWords(value.kind, isSpace, 32);
      CleanTextIsWords(value.name, isSpace, 256);
      CleanTextIsWords(value.autostart, isSpace, 64);
      CleanTextIsWords(value.description, isSpace, 512);
      CleanTextIsWords(value.sourceState, isSpace, 128);
      SourceTable(item.source);
      KindTable(item);
      StateIff(value.state, lower, isSpace, stateOf, item.state);
      hide CleanText, Cleaned, NormalizeState, AutostartOf, SourceNamed, SourceName, SourceRank, GroupRank, KindOf,
          KindName, SOURCES, KINDS, STATES;
    }
  }

  lemma StateIff(text: string, lower: string -> string, isSpace: char -> bool, stateOf: string -> State, state: State)
    requires isSpace(' ')
    ensures NormalizeState(text, lower, isSpace, stateOf) == state <==>
              var word := lower(Cleaned(text, isSpace, 128));
              && (word == "" ==> state == Unknown)
              && (forall k :: 0 <= k < |STATES| && word == STATES[k].1 ==> state == STATES[k].0)
              && (word != "" && (forall k :: 0 <= k < |STATES| ==> word != STATES[k].1) ==> state == stateOf(word))
  {
    CleanTextIsWords(text, isSpace, 128);
    var word := lower(Cleaned(text, isSpace, 128));
    NamedIff(word);
    hide CleanText, Cleaned, StateNamed, STATES;
  }

  lemma NamedIff(word: string)
    ensures forall k :: 0 <= k < |STATES| && word == STATES[k].1 ==> StateNamed(word) == Some(STATES[k].0)
    ensures StateNamed(word).Some? ==> word != "" && exists k :: 0 <= k < |STATES| && word == STATES[k].1
  {
    if StateNamed(word).Some? { StateTable(StateNamed(word).value); }
  }
}
