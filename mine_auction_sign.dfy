/** `MineAuctionSign`: the helpers that read the configured sign text, write
    it onto a sign or a sign-change event, mark a sign invalid, check a sign
    against its configured text, and register or unregister a sign in the
    storage. A sign is the block at a position of the server's world; its
    four lines are written straight into the world. */
module MineAuctionSign {
  import opened Lang
  import opened Bukkit
  import opened SignTypes
  import opened Storage

  /** `VALID_SIGN_IDENTIFIER`, `INVALID_SIGN_IDENTIFIER`, `LEGACY_COLOR_CODE`. */
  const ValidSignIdentifier: string := "[MineAuction]"
  const InvalidSignIdentifier: string := "*MineAuction*"
  const LegacyColorCode: string := "&"

  /** `BUGGY_COLOR_CODE_SEQUENCE`: U+00C2 followed by the colour char, the
      UTF-8 encoding of the section sign read as Latin-1. */
  const BuggyFirst: char := '\U{C2}'

  /** The configuration keys of the header and of a type's own lines. */
  const HeaderKey: string := "options.signs.signTexts.header"

  function TypeKey(t: SignType): string
  {
    "options.signs.signTexts.types." + Name(t)
  }

  /** The plugin's configuration as string lists, and
      `ChatColor.translateAlternateColorCodes('&', _)`, whose definition is
      not part of this model. */
  datatype Settings = Settings(config: map<string, seq<string>>, translate: string -> string)

  /** `config.getStringList(key)`: the empty list for a missing key. */
  function GetStringList(settings: Settings, key: string): (r: seq<string>)
    ensures key in settings.config ==> r == settings.config[key]
    ensures key !in settings.config ==> r == []
  {
    if key in settings.config then settings.config[key] else []
  }

  /** One configured line after the replace hack and colour translation. */
  function FixLine(settings: Settings, s: string): string {
    settings.translate(ReplacePair(s, BuggyFirst, ColorChar, LegacyColorCode))
  }

  /** The text handed to colour translation never holds the buggy sequence. */
  lemma FixLineRemovesBuggySequence(s: string)
    ensures !ContainsPair(ReplacePair(s, BuggyFirst, ColorChar, LegacyColorCode), BuggyFirst, ColorChar)
  {
    ReplacePairRemovesAll(s, BuggyFirst, ColorChar, LegacyColorCode);
  }

  /** A line without the buggy sequence reaches colour translation unchanged. */
  lemma FixLineKeepsCleanLines(settings: Settings, s: string)
    requires !ContainsPair(s, BuggyFirst, ColorChar)
    ensures FixLine(settings, s) == settings.translate(s)
  {
    ReplacePairIdentity(s, BuggyFirst, ColorChar, LegacyColorCode);
  }

  /** `getConfiguredFormatting(type)`: the header with the type's lines
      inserted at index 2, every line fixed. Inserting at index 2 raises
      IndexOutOfBoundsException when the header has fewer than two lines. */
  function ConfiguredFormatting(t: SignType, settings: Settings): (r: Result<seq<string>>)
    ensures var header := GetStringList(settings, HeaderKey);
      var typeLines := GetStringList(settings, TypeKey(t));
      && (r.Thrown? <==> |header| < 2)
      && (r.Thrown? ==> r.error == IndexOutOfBounds)
      && (r.Ok? ==>
            && |r.value| == |header| + |typeLines|
            && (forall i :: 0 <= i < 2 ==> r.value[i] == FixLine(settings, header[i]))
            && (forall i :: 0 <= i < |typeLines| ==> r.value[2 + i] == FixLine(settings, typeLines[i]))
            && (forall i :: 2 <= i < |header| ==> r.value[i + |typeLines|] == FixLine(settings, header[i])))
  {
    var header := GetStringList(settings, HeaderKey);
    var typeLines := GetStringList(settings, TypeKey(t));
    if |header| < 2 then Thrown(IndexOutOfBounds)
    else
      var merged := header[..2] + typeLines + header[2..];
      Ok(seq(|merged|, i requires 0 <= i < |merged| => FixLine(settings, merged[i])))
  }

  /** The source's loop: copy the header, insert the type lines, then fix
      every line in place. */
  method GetConfiguredFormatting(t: SignType, settings: Settings) returns (r: Result<seq<string>>)
    ensures r == ConfiguredFormatting(t, settings)
  {
    var lines := GetStringList(settings, HeaderKey);
    if |lines| < 2 {
      return Thrown(IndexOutOfBounds);
    }
    lines := lines[..2] + GetStringList(settings, TypeKey(t)) + lines[2..];
    ghost var merged := lines;
    var i := 0;
    while i < |lines|
      invariant 0 <= i <= |lines| == |merged|
      invariant forall j :: 0 <= j < i ==> lines[j] == FixLine(settings, merged[j])
      invariant forall j :: i <= j < |lines| ==> lines[j] == merged[j]
    {
      lines := lines[i := FixLine(settings, lines[i])];
      i := i + 1;
    }
    assert lines == seq(|merged|, j requires 0 <= j < |merged| => FixLine(settings, merged[j]));
    return Ok(lines);
  }

  /** The four lines after `setLine(i, conf[i])` for i = 0..3 stopped at the
      first index `conf` lacks. */
  function Overwrite(cur: seq<string>, conf: seq<string>): (r: seq<string>)
    requires |cur| == 4
    ensures |r| == 4
    ensures forall i :: 0 <= i < 4 ==> r[i] == if i < |conf| then conf[i] else cur[i]
  {
    if |conf| >= 4 then conf[..4] else conf + cur[|conf|..]
  }

  /** The loop of both `format` methods: writes line i from `conf` for i from
      0 to 3, raising IndexOutOfBoundsException at the first missing line. */
  method WriteLines(cur: seq<string>, conf: seq<string>) returns (lines: seq<string>, r: Outcome)
    requires |cur| == 4
    ensures lines == Overwrite(cur, conf)
    ensures r == if |conf| >= 4 then Pass else Fail(IndexOutOfBounds)
  {
    lines := cur;
    var i := 0;
    while i < 4
      invariant 0 <= i <= 4 && i <= |conf|
      invariant |lines| == 4
      invariant forall j :: 0 <= j < i ==> lines[j] == conf[j]
      invariant forall j :: i <= j < 4 ==> lines[j] == cur[j]
    {
      if i >= |conf| {
        return lines, Fail(IndexOutOfBounds);
      }
      lines := lines[i := conf[i]];
      i := i + 1;
    }
    return lines, Pass;
  }

  /** With a complete configuration the sign shows exactly its first four lines. */
  lemma OverwriteComplete(cur: seq<string>, conf: seq<string>)
    requires |cur| == 4 && |conf| >= 4
    ensures Overwrite(cur, conf) == conf[..4]
  {
  }

  /** Formatting twice writes what formatting once writes. */
  lemma OverwriteIdempotent(cur: seq<string>, conf: seq<string>)
    requires |cur| == 4
    ensures Overwrite(Overwrite(cur, conf), conf) == Overwrite(cur, conf)
  {
  }

  /** `format(sign, type)`: the sign's lines become the configured lines. */
  method FormatSign(server: Server, p: Pos, t: SignType, settings: Settings) returns (r: Outcome)
    requires server.Valid() && IsSignAt(server.blocks, p)
    modifies server`blocks
    ensures server.Valid()
    ensures var conf := ConfiguredFormatting(t, settings);
      && (conf.Thrown? ==> r == Fail(conf.error) && server.blocks == old(server.blocks))
      && (conf.Ok? ==>
            && server.blocks == old(server.blocks)[p := old(server.blocks)[p].WithLines(Overwrite(old(server.blocks)[p].lines, conf.value))]
            && r == if |conf.value| >= 4 then Pass else Fail(IndexOutOfBounds))
  {
    var conf := GetConfiguredFormatting(t, settings);
    if conf.Thrown? {
      return Fail(conf.error);
    }
    var lines;
    lines, r := WriteLines(server.blocks[p].lines, conf.value);
    server.blocks := server.blocks[p := server.blocks[p].WithLines(lines)];
  }

  /** `format(event, type)`: the event's lines become the configured lines. */
  method FormatEvent(e: SignChangeEvent, t: SignType, settings: Settings) returns (r: Outcome)
    requires |e.lines| == 4
    modifies e`lines
    ensures |e.lines| == 4
    ensures var conf := ConfiguredFormatting(t, settings);
      && (conf.Thrown? ==> r == Fail(conf.error) && e.lines == old(e.lines))
      && (conf.Ok? ==>
            && e.lines == Overwrite(old(e.lines), conf.value)
            && r == if |conf.value| >= 4 then Pass else Fail(IndexOutOfBounds))
  {
    var conf := GetConfiguredFormatting(t, settings);
    if conf.Thrown? {
      return Fail(conf.error);
    }
    e.lines, r := WriteLines(e.lines, conf.value);
  }

  /** `invalidate(_, message)`: line 0 becomes the invalid identifier and
      line 3 the message in red; lines 1 and 2 stay. */
  function Invalidated(cur: seq<string>, message: string): (r: seq<string>)
    requires |cur| == 4
    ensures |r| == 4
    ensures r[0] == InvalidSignIdentifier && r[3] == Red + message
    ensures r[1] == cur[1] && r[2] == cur[2]
  {
    cur[0 := InvalidSignIdentifier][3 := Red + message]
  }

  /** Invalidating again with the same message changes nothing. */
  lemma InvalidatedIdempotent(cur: seq<string>, message: string)
    requires |cur| == 4
    ensures Invalidated(Invalidated(cur, message), message) == Invalidated(cur, message)
  {
  }

  /** An invalidated sign no longer carries the valid identifier, even
      ignoring case and surrounding blanks. */
  lemma InvalidatedNotIdentified(cur: seq<string>, message: string)
    requires |cur| == 4
    ensures !EqualsIgnoreCase(Trim(Invalidated(cur, message)[0]), ValidSignIdentifier)
  {
    var l := Invalidated(cur, message)[0];
    assert Trim(l) == l;
    assert !CharEqualsIgnoreCase(l[0], ValidSignIdentifier[0]);
  }

  method InvalidateEvent(e: SignChangeEvent, message: string)
    requires |e.lines| == 4
    modifies e`lines
    ensures e.lines == Invalidated(old(e.lines), message)
  {
    e.lines := e.lines[0 := InvalidSignIdentifier];
    e.lines := e.lines[3 := Red + message];
  }

  method InvalidateSign(server: Server, p: Pos, message: string)
    requires server.Valid() && IsSignAt(server.blocks, p)
    modifies server`blocks
    ensures server.Valid()
    ensures server.blocks == old(server.blocks)[p := old(server.blocks)[p].WithLines(Invalidated(old(server.blocks)[p].lines, message))]
  {
    var lines := server.blocks[p].lines;
    lines := lines[0 := InvalidSignIdentifier];
    lines := lines[3 := Red + message];
    server.blocks := server.blocks[p := server.blocks[p].WithLines(lines)];
  }

  /** `isValidMineAuctionSign(block)`: the block is a sign and its location
      is registered. */
  function IsValidMineAuctionSign(storage: SignStorage, w: Blocks, p: Pos): (r: bool)
    reads storage
    ensures r <==> IsSignAt(w, p) && LocationOf(p) in storage.listOfSigns
  {
    IsSignAt(w, p) && storage.ContainsItem(LocationOf(p))
  }

  /** What the check loop of `isCorrectlyFormatted` returns for these four
      lines: false at the first differing line, IndexOutOfBoundsException
      when the configured lines run out before a difference, true when all
      four are equal. */
  function FormatCheck(lines: seq<string>, conf: seq<string>): (r: Result<bool>)
    requires |lines| == 4
  {
    var k := if |conf| < 4 then |conf| else 4;
    if lines[..k] != conf[..k] then Ok(false)
    else if k < 4 then Thrown(IndexOutOfBounds)
    else Ok(true)
  }

  /** The check accepts exactly the lines `format` writes, and raises only for
      a configuration too short to format with. */
  lemma FormatCheckSpec(lines: seq<string>, conf: seq<string>)
    requires |lines| == 4
    ensures FormatCheck(lines, conf) == Ok(true) <==> |conf| >= 4 && lines == conf[..4]
    ensures FormatCheck(lines, conf).Thrown? ==> |conf| < 4 && FormatCheck(lines, conf).error == IndexOutOfBounds
    ensures |conf| >= 4 ==> FormatCheck(lines, conf).Ok?
  {
    if |conf| >= 4 {
      assert lines[..4] == lines;
    }
  }

  /** After formatting with a complete configuration the sign is correctly
      formatted. */
  lemma FormattedIsCorrect(cur: seq<string>, conf: seq<string>)
    requires |cur| == 4 && |conf| >= 4
    ensures FormatCheck(Overwrite(cur, conf), conf) == Ok(true)
  {
    FormatCheckSpec(Overwrite(cur, conf), conf);
  }

  /** The loop of `isCorrectlyFormatted` over the four lines. */
  method CheckLines(lines: seq<string>, conf: seq<string>) returns (r: Result<bool>)
    requires |lines| == 4
    ensures r == FormatCheck(lines, conf)
  {
    var i := 0;
    while i < 4
      invariant 0 <= i <= 4 && i <= |conf|
      invariant lines[..i] == conf[..i]
    {
      if i >= |conf| {
        return Thrown(IndexOutOfBounds);
      }
      if lines[i] != conf[i] {
        assert lines[..i + 1] != conf[..i + 1] by {
          assert lines[..i + 1][i] == lines[i];
          assert conf[..i + 1][i] == conf[i];
        }
        var k := if |conf| < 4 then |conf| else 4;
        assert lines[..k][..i + 1] == lines[..i + 1] && conf[..k][..i + 1] == conf[..i + 1];
        return Ok(false);
      }
      assert lines[..i + 1] == lines[..i] + [lines[i]];
      assert conf[..i + 1] == conf[..i] + [conf[i]];
      i := i + 1;
    }
    return Ok(true);
  }

  /** `isCorrectlyFormatted(sign, type)`. */
  method IsCorrectlyFormatted(lines: seq<string>, t: SignType, settings: Settings) returns (r: Result<bool>)
    requires |lines| == 4
    ensures var conf := ConfiguredFormatting(t, settings);
      && (conf.Thrown? ==> r == Thrown(conf.error))
      && (conf.Ok? ==> r == FormatCheck(lines, conf.value))
  {
    var conf := GetConfiguredFormatting(t, settings);
    if conf.Thrown? {
      return Thrown(conf.error);
    }
    r := CheckLines(lines, conf.value);
  }

  /** `handleCreation(event, type)`: register the sign, save, then format the
      event's lines. An exception from `save` ends the handler before the
      lines are written. */
  method HandleCreation(e: SignChangeEvent, t: SignType, storage: SignStorage, settings: Settings) returns (r: Outcome)
    requires |e.lines| == 4
    modifies storage, e`lines
    ensures |e.lines| == 4
    ensures storage.listOfSigns == old(storage.listOfSigns)[LocationOf(e.block) := t]
    ensures storage.GetSignType(LocationOf(e.block)) == Some(t)
    ensures var ser := Serialize(storage.listOfSigns);
      && (ser.Ok? ==> storage.file == Some(Written(ser.value)))
      && (ser.Thrown? ==> storage.file == Some(Truncated) && r == Fail(NullPointer) && e.lines == old(e.lines))
    ensures Serialize(storage.listOfSigns).Ok? ==>
      var conf := ConfiguredFormatting(t, settings);
      && (conf.Thrown? ==> r == Fail(conf.error) && e.lines == old(e.lines))
      && (conf.Ok? ==>
            && e.lines == Overwrite(old(e.lines), conf.value)
            && r == if |conf.value| >= 4 then Pass else Fail(IndexOutOfBounds))
  {
    var _ := storage.AddItem(LocationOf(e.block), t);
    r := storage.Save();
    if r.Fail? {
      return;
    }
    r := FormatEvent(e, t, settings);
  }

  /** `handleRemoval(sign)`: unregister the sign, save, then invalidate it
      with an empty message. */
  method HandleRemoval(p: Pos, storage: SignStorage, server: Server) returns (r: Outcome)
    requires server.Valid() && IsSignAt(server.blocks, p)
    modifies storage, server`blocks
    ensures server.Valid()
    ensures storage.listOfSigns == old(storage.listOfSigns) - {LocationOf(p)}
    ensures !storage.ContainsItem(LocationOf(p))
    ensures var ser := Serialize(storage.listOfSigns);
      && (ser.Ok? ==>
            && storage.file == Some(Written(ser.value)) && r == Pass
            && server.blocks == old(server.blocks)[p := old(server.blocks)[p].WithLines(Invalidated(old(server.blocks)[p].lines, ""))])
      && (ser.Thrown? ==> storage.file == Some(Truncated) && r == Fail(NullPointer) && server.blocks == old(server.blocks))
  {
    var _ := storage.RemoveItem(LocationOf(p));
    r := storage.Save();
    if r.Fail? {
      return;
    }
    InvalidateSign(server, p, "");
  }
}
