/**
 * A whole run of the two parsers on the smallest complete input: a dimensions file
 * holding one block and a weights file holding one line, both for the same model.
 */
module Scenario {
  import opened Wrappers
  import opened JsText
  import opened Extract
  import opened Records
  import opened Parser

  /** A measurement line `<digits>.<digit> mm`. */
  function Measurement(ds: string, d: char): string {
    ds + ['.', d] + " mm"
  }

  predicate IsMeasurement(ds: string, d: char) {
    ds != [] && AllDigits(ds) && IsDigit(d)
  }

  /** A measurement line is not a header. */
  lemma MeasurementNotHeader(ds: string, d: char)
    requires IsMeasurement(ds, d)
    ensures !IsHeader(Measurement(ds, d))
  {
    var line := Measurement(ds, d);
    forall k | 0 <= k < |line| ensures line[k] != ':' {
      if k < |ds| { assert line[k] == ds[k]; }
    }
  }

  /** A name with none of the separators in it is split into itself. */
  lemma PlainName(name: string, sep: string)
    requires sep != [] && Free(name, sep)
    ensures Split(name, sep) == [name]
  {
  }

  /** `name:` loses its colon. */
  lemma HeaderLabel(name: string)
    requires ':' !in name
    ensures RemoveFirst(name + ":", ':') == name
  {
    var s := name + ":";
    IndexOfChar(s, ':');
    var i := IndexOf(s, [':']);
    assert s[|name|] == ':';
    assert i == |name|;
    assert s[..i] == name;
  }

  /** `name:<digits> g` splits on `:` into the name and the weight text. */
  lemma WeightFields(name: string, gs: string)
    requires ':' !in name && AllDigits(gs)
    ensures Split(name + ":" + gs + " g", ":") == [name, gs + " g"]
  {
    var line := name + ":" + gs + " g";
    var rest := gs + " g";
    IndexOfChar(line, ':');
    var i := IndexOf(line, [':']);
    assert line[|name|] == ':';
    assert i == |name|;
    assert line[..i] == name;
    assert line[i + 1..] == rest;
    IndexOfChar(rest, ':');
    assert ':' !in rest by {
      forall k | 0 <= k < |rest| ensures rest[k] != ':' {
        if k < |gs| { assert rest[k] == gs[k]; }
      }
    }
  }

  /** A dimensions file that is one block is parsed as that block. */
  lemma OneBlock(header: string, h: string, w: string, d: string)
    requires !IsHeader(h) && !IsHeader(w) && !IsHeader(d)
    ensures var block := [header, h, w, d];
      ParseFileSpec(map[], TypeDims, block) == ApplyDim(map[], block)
  {
    var block := [header, h, w, d];
    assert IsGrouping(block, [block]) by {
      assert Concat([block]) == Concat([]) + block;
    }
    GroupingUnique(block, [block]);
    var bs := [block];
    assert bs[..0] == [] && bs[0] == block;
    assert ApplyBlocks(map[], bs[..0]) == Ok(map[]);
    assert ApplyBlocks(map[], bs) == ApplyDim(map[], block);
  }

  /** A block whose three measurement lines match is read as their three literals. */
  lemma BlockVolume(header: string, h: string, hd: char, w: string, wd: char, d: string, dd: char)
    requires IsMeasurement(h, hd) && IsMeasurement(w, wd) && IsMeasurement(d, dd)
    ensures CalcVolume([header, Measurement(h, hd), Measurement(w, wd), Measurement(d, dd)])
      == Ok(Volume(h + ['.', hd], w + ['.', wd], d + ['.', dd]))
  {
    var block := [header, Measurement(h, hd), Measurement(w, wd), Measurement(d, dd)];
    ReadMeasurement(block, 1, h, hd);
    ReadMeasurement(block, 2, w, wd);
    ReadMeasurement(block, 3, d, dd);
  }

  /** Line `k` of a block, a measurement line, is read as its literal. */
  lemma ReadMeasurement(parts: seq<string>, k: nat, ds: string, d: char)
    requires k < |parts| && parts[k] == Measurement(ds, d) && IsMeasurement(ds, d)
    ensures ReadDimension(parts, k) == Ok(ds + ['.', d])
  {
    MeasurementLine(ds, d);
  }

  /** Writing one fact under one name into an empty dictionary. */
  lemma PutOne(name: string, fact: Fact)
    ensures PutAll(map[], [name], fact) == map[name := Update(NewRecord(name), fact)]
  {
    assert [name][..0] == [];
  }

  /** The dimensions file of one block yields the one record with only its volume set. */
  lemma DimsFile(name: string, h: string, hd: char, w: string, wd: char, d: string, dd: char)
    requires ':' !in name && Free(name, " & ")
    requires IsMeasurement(h, hd) && IsMeasurement(w, wd) && IsMeasurement(d, dd)
    ensures var v := Volume(h + ['.', hd], w + ['.', wd], d + ['.', dd]);
      ParseFileSpec(map[], TypeDims, [name + ":", Measurement(h, hd), Measurement(w, wd), Measurement(d, dd)])
        == Ok(map[name := Record(name, Some(v), None, None)])
  {
    var block := [name + ":", Measurement(h, hd), Measurement(w, wd), Measurement(d, dd)];
    var v := Volume(h + ['.', hd], w + ['.', wd], d + ['.', dd]);
    MeasurementNotHeader(h, hd);
    MeasurementNotHeader(w, wd);
    MeasurementNotHeader(d, dd);
    OneBlock(name + ":", Measurement(h, hd), Measurement(w, wd), Measurement(d, dd));
    BlockVolume(name + ":", h, hd, w, wd, d, dd);
    HeaderLabel(name);
    PlainName(name, " & ");
    assert DimNames(block) == [name];
    PutOne(name, VolumeFact(v));
  }

  /** The line `name:<digits> g` writes the weight the digits denote under `name`. */
  lemma WeightLine(m: map<string, Record>, name: string, grams: string)
    requires ':' !in name && Free(name, " and ")
    requires |grams| >= 2 && AllDigits(grams)
    ensures ApplyWeight(m, name + ":" + grams + " g") == Ok(Put(m, name, WeightFact(Int(DecimalValue(grams)))))
  {
    var line := name + ":" + grams + " g";
    WeightFields(name, grams);
    GramsText(grams);
    PlainName(name, " and ");
    var split := Split(line, ":");
    assert split[0] == name && split[1] == grams + " g";
    var fact := WeightFact(Int(DecimalValue(grams)));
    assert ApplyWeight(m, line) == Ok(PutAll(m, [name], fact));
    var names := [name];
    assert names[..0] == [] && names[0] == name;
  }

  /** Writing the only key of a one-entry dictionary. */
  lemma Overwrite(k: string, a: Record, b: Record)
    ensures map[k := a][k := b] == map[k := b]
  {
  }

  /** The weights file of one line `name:<digits> g` sets the weight, and the ratio when the weight is not 0. */
  lemma WeightsFile(name: string, v: Volume, grams: string)
    requires ':' !in name && Free(name, " and ")
    requires |grams| >= 2 && AllDigits(grams)
    ensures var n := DecimalValue(grams);
      ParseFileSpec(map[name := Record(name, Some(v), None, None)], TypeWeight, [name + ":" + grams + " g"])
        == Ok(map[name := Record(name, Some(v), Some(Int(n)), if n != 0 then Some(Ratio(v, n)) else None)])
  {
    var m := map[name := Record(name, Some(v), None, None)];
    var line := name + ":" + grams + " g";
    var lines := [line];
    assert lines[..0] == [] && lines[0] == line;
    assert ApplyWeightLines(m, lines) == ApplyWeight(m, line);
    WeightLine(m, name, grams);
    var n := DecimalValue(grams);
    var fact := WeightFact(Int(n));
    var r := Record(name, Some(v), Some(Int(n)), if n != 0 then Some(Ratio(v, n)) else None);
    assert Lookup(m, name) == m[name];
    assert Update(m[name], fact) == r;
    assert Put(m, name, fact) == m[name := r];
    Overwrite(name, m[name], r);
    assert TypeWeight != TypeDims;
  }

  /**
   * One block `name:` with three measurement lines, then one line `name:<digits> g`,
   * give one record: the three literals as its volume, the weight, and a ratio exactly
   * when the weight is not 0.
   */
  lemma OneModel(name: string, h: string, hd: char, w: string, wd: char, d: string, dd: char, grams: string)
    requires ':' !in name && Free(name, " & ") && Free(name, " and ")
    requires IsMeasurement(h, hd) && IsMeasurement(w, wd) && IsMeasurement(d, dd)
    requires |grams| >= 2 && AllDigits(grams)
    ensures var v := Volume(h + ['.', hd], w + ['.', wd], d + ['.', dd]);
      var n := DecimalValue(grams);
      Pipeline([name + ":", Measurement(h, hd), Measurement(w, wd), Measurement(d, dd)], [name + ":" + grams + " g"])
        == Ok(map[name := Record(name, Some(v), Some(Int(n)), if n != 0 then Some(Ratio(v, n)) else None)])
  {
    DimsFile(name, h, hd, w, wd, d, dd);
    WeightsFile(name, Volume(h + ['.', hd], w + ['.', wd], d + ['.', dd]), grams);
  }
}
