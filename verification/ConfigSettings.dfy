/**
 What a line of the configuration file does (rsshell.cc): which numbers are taken as sizes, and that nothing else is.
 */
module ConfigSettings {
  import opened CStrings
  import opened Tokenizer
  import opened LineReader
  import opened ShellConfig
  import opened ConfigReload

  predicate IsLong(n: int) {
    -0x8000_0000_0000_0000 <= n <= 0x7fff_ffff_ffff_ffff
  }

  lemma LongIsShort(n: int)
    requires IsLong(n)
    ensures |Decimal(n)| <= 20
  {
    TenTo19();
    DigitsLength(if n < 0 then -n else n, 19, 10_000_000_000_000_000_000);
  }

  lemma TenTo19()
    ensures Pow10(19) == 10_000_000_000_000_000_000
  {
    assert Pow10(5) == 100_000;
    assert Pow10(10) == 100_000 * Pow10(5);
    assert Pow10(15) == 100_000 * Pow10(10);
  }

  lemma DecimalIsWord(n: int)
    ensures Decimal(n) != "" && BlankFree(Decimal(n)) && NUL !in Decimal(n) && '\n' !in Decimal(n)
  {
  }

  /** The two tokens of a line that sets a size. */
  lemma SettingTokens(key: string, n: int)
    requires IsSizeKey(key)
    ensures '\n' !in key + " " + Decimal(n)
    ensures LineTokens(key + " " + Decimal(n)) == [key, Decimal(n)]
  {
    SizeKeyChars(key);
    DecimalIsWord(n);
    var line := key + " " + Decimal(n);
    assert line == key + (" " + Decimal(n));
    CStringIs(line, 0, line);
    TwoTokens(key, Decimal(n));
  }

  /** Behind whole lines one more line is read as it is. */
  lemma OneMoreLine(text: string, line: string)
    requires TailLength(text) % 128 == 0 && '\n' !in line && |line| < 128
    ensures Lines(text + (line + "\n")) == Lines(text) + [line]
  {
    AlignedIsMultiple(text, 128);
    ReadAllConcat(text, line + "\n", 128);
    assert line + "\n" + "" == line + "\n";
    FirstLine(line, "", 128);
  }

  lemma LastLineDecides(text: string, line: string, key: string)
    requires TailLength(text) % 128 == 0 && '\n' !in line && |line| < 128
    ensures Setting(Lines(text + (line + "\n")), key)
         == if ValueOf(line, key) > 0 then ValueOf(line, key) else Setting(Lines(text), key)
  {
    OneMoreLine(text, line);
    SettingConcat(Lines(text), [line], key);
    SettingOfOne(line, key);
  }

  /**
   Every long above 0 is taken as the size, and no other: a further line "HSIZE n" sets the width to n and leaves the
   height, and the other way round, and neither does anything if n is not positive.
   */
  lemma SizesAreRead(text: string, n: int)
    requires TailLength(text) % 128 == 0 && -0x8000_0000_0000_0000 <= n <= 0x7fff_ffff_ffff_ffff
    ensures var h := text + ("HSIZE " + Decimal(n) + "\n");
            Hsize(h) == (if n > 0 then n else Hsize(text)) && Vsize(h) == Vsize(text)
    ensures var v := text + ("VSIZE " + Decimal(n) + "\n");
            Vsize(v) == (if n > 0 then n else Vsize(text)) && Hsize(v) == Hsize(text)
  {
    WidthIsRead(text, n);
    HeightIsRead(text, n);
  }

  lemma WidthIsRead(text: string, n: int)
    requires TailLength(text) % 128 == 0 && IsLong(n)
    ensures var h := text + ("HSIZE " + Decimal(n) + "\n");
            Hsize(h) == (if n > 0 then n else Hsize(text)) && Vsize(h) == Vsize(text)
  {
    SizeIsRead(text, "HSIZE", n);
    assert "HSIZE" + " " == "HSIZE ";
    Sizes(text + ("HSIZE" + " " + Decimal(n) + "\n"));
    Sizes(text);
  }

  lemma HeightIsRead(text: string, n: int)
    requires TailLength(text) % 128 == 0 && IsLong(n)
    ensures var v := text + ("VSIZE " + Decimal(n) + "\n");
            Vsize(v) == (if n > 0 then n else Vsize(text)) && Hsize(v) == Hsize(text)
  {
    SizeIsRead(text, "VSIZE", n);
    assert "VSIZE" + " " == "VSIZE ";
    Sizes(text + ("VSIZE" + " " + Decimal(n) + "\n"));
    Sizes(text);
  }

  lemma Sizes(text: string)
    ensures Hsize(text) == if Setting(Lines(text), "HSIZE") == 0 then 75 else Setting(Lines(text), "HSIZE")
    ensures Vsize(text) == if Setting(Lines(text), "VSIZE") == 0 then 40 else Setting(Lines(text), "VSIZE")
  {
  }

  lemma SizeIsRead(text: string, key: string, n: int)
    requires TailLength(text) % 128 == 0 && IsSizeKey(key) && IsLong(n)
    ensures var after := Lines(text + (key + " " + Decimal(n) + "\n"));
            forall k :: IsSizeKey(k) ==> Setting(after, k) == if k == key && n > 0 then n else Setting(Lines(text), k)
  {
    var line := key + " " + Decimal(n);
    LongIsShort(n);
    SettingTokens(key, n);
    AtolOfDecimal(n);
    forall k | IsSizeKey(k)
      ensures Setting(Lines(text + (line + "\n")), k) == if k == key && n > 0 then n else Setting(Lines(text), k)
    {
      LastLineDecides(text, line, k);
    }
  }

  /** A line whose first word is neither "HSIZE" nor "VSIZE" changes neither size, whatever else is in it. */
  lemma OtherLinesAreIgnored(text: string, line: string)
    requires TailLength(text) % 128 == 0 && '\n' !in line && |line| < 128
    requires LineTokens(line)[0] != "HSIZE" && LineTokens(line)[0] != "VSIZE"
    ensures Hsize(text + (line + "\n")) == Hsize(text) && Vsize(text + (line + "\n")) == Vsize(text)
  {
    LastLineDecides(text, line, "HSIZE");
    LastLineDecides(text, line, "VSIZE");
  }

  /** An empty file has 75 columns and 40 lines. */
  lemma EmptyFile()
    ensures Hsize("") == 75 && Vsize("") == 40 && Added("") == "HSIZE 75\nVSIZE 40\n"
  {
  }
}
