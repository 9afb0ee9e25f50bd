/**
 * The record accumulator of parse.js: `accum`, a dictionary from model name to a
 * record `{model, volume, weight, squareMmPerGram}`, and `recordModel`, which writes
 * one fact into it. Each record object is reachable from its own key only, so a
 * record is modelled as a value stored in a map.
 */
module Records {
  import opened Wrappers
  import opened Extract

  /**
   * `(volume / weight).toFixed(2)`, kept as its operands: the division and the
   * two-decimal rendering are not modelled. `grams` is never 0 (see `Consistent`).
   */
  datatype Ratio = Ratio(volume: Volume, grams: nat)

  /** One entry of `accum`; `None` stands for `null`. */
  datatype Record = Record(model: string, volume: Option<Volume>, weight: Option<Number>, ratio: Option<Ratio>)

  /** The one field a call of `recordModel` writes, with its value. */
  datatype Fact = VolumeFact(volume: Volume) | WeightFact(weight: Number)

  /** The record created for a model not seen before: every field but the name is null. */
  function NewRecord(model: string): Record {
    Record(model, None, None, None)
  }

  /** JavaScript truthiness of the weight field: not null, not NaN, not 0. */
  predicate WeightTruthy(w: Option<Number>) {
    w.Some? && w.value.Int? && w.value.value != 0
  }

  /**
   * JavaScript truthiness of the volume field. A volume is the string `toFixed` returns,
   * never empty, so it is truthy exactly when it is not null.
   */
  predicate VolumeTruthy(v: Option<Volume>) {
    v.Some?
  }

  /** The ratio a record would get from its current volume and weight, when both are truthy. */
  predicate RatioDue(r: Record) {
    WeightTruthy(r.weight) && VolumeTruthy(r.volume)
  }

  /** The ratio is only ever computed from truthy fields, and it is current whenever both are truthy now. */
  ghost predicate Consistent(r: Record) {
    && (r.ratio.Some? ==> r.volume.Some? && r.weight.Some? && r.ratio.value.grams != 0)
    && (RatioDue(r) ==> r.ratio == Some(Ratio(r.volume.value, r.weight.value.value)))
  }

  /** Every record sits under its own name and is consistent. */
  ghost predicate WellFormed(m: map<string, Record>) {
    forall k :: k in m ==> m[k].model == k && Consistent(m[k])
  }

  /** Lines 36-40 of parse.js on one record: write the field, then recompute the ratio if both fields are truthy. */
  function Update(r: Record, fact: Fact): (r': Record)
    ensures r'.model == r.model
    ensures fact.VolumeFact? ==> r'.volume == Some(fact.volume) && r'.weight == r.weight
    ensures fact.WeightFact? ==> r'.weight == Some(fact.weight) && r'.volume == r.volume
    ensures RatioDue(r') ==> r'.ratio == Some(Ratio(r'.volume.value, r'.weight.value.value))
    ensures !RatioDue(r') ==> r'.ratio == r.ratio
  {
    var written := match fact
      case VolumeFact(v) => r.(volume := Some(v))
      case WeightFact(w) => r.(weight := Some(w));
    if RatioDue(written) then written.(ratio := Some(Ratio(written.volume.value, written.weight.value.value)))
    else written
  }

  /** The record a write to `model` starts from: the stored one, or a new one. */
  function Lookup(m: map<string, Record>, model: string): Record {
    if model in m then m[model] else NewRecord(model)
  }

  /** `recordModel(model, key, val, accum)` on the dictionary as a value. */
  function Put(m: map<string, Record>, model: string, fact: Fact): (m': map<string, Record>)
    ensures forall k :: k in m' <==> k in m || k == model
    ensures forall k :: k in m && k != model ==> m'[k] == m[k]
  {
    m[model := Update(Lookup(m, model), fact)]
  }

  /** `names.forEach(model => recordModel(model, key, val, accum))`. */
  function PutAll(m: map<string, Record>, names: seq<string>, fact: Fact): (m': map<string, Record>)
    ensures forall k :: k in m' <==> k in m || k in names
    ensures forall k :: k in m && k !in names ==> m'[k] == m[k]
  {
    if names == [] then m else Put(PutAll(m, names[..|names| - 1], fact), names[|names| - 1], fact)
  }

  /** After a write the record exists under its name and holds the value written; nothing else changes. */
  lemma PutWrites(m: map<string, Record>, model: string, fact: Fact)
    requires WellFormed(m)
    ensures var m' := Put(m, model, fact);
      && model in m'
      && m'[model].model == model
      && (fact.VolumeFact? ==> m'[model].volume == Some(fact.volume))
      && (fact.WeightFact? ==> m'[model].weight == Some(fact.weight))
      && (forall k :: k != model ==> (k in m' <==> k in m))
  {
  }

  /** A record created by a write has null in every field but the name and the one written; in particular no ratio. */
  lemma PutCreates(m: map<string, Record>, model: string, fact: Fact)
    requires model !in m
    ensures var r := Put(m, model, fact)[model];
      && r.ratio.None?
      && (fact.VolumeFact? ==> r.weight.None?)
      && (fact.WeightFact? ==> r.volume.None?)
  {
  }

  /**
   * The ratio changes only when both fields are truthy after the write. It is never
   * reset to null, and the volume and weight fields are never cleared.
   */
  lemma PutRatio(m: map<string, Record>, model: string, fact: Fact)
    requires model in m
    ensures var (r, r') := (m[model], Put(m, model, fact)[model]);
      && (r'.ratio != r.ratio ==> RatioDue(r'))
      && (r.ratio.Some? ==> r'.ratio.Some?)
      && (r.volume.Some? ==> r'.volume.Some?)
      && (r.weight.Some? ==> r'.weight.Some?)
  {
  }

  /** A write keeps every record consistent and under its own name. */
  lemma PutWellFormed(m: map<string, Record>, model: string, fact: Fact)
    requires WellFormed(m)
    ensures WellFormed(Put(m, model, fact))
  {
  }

  /** Writing the same fact under a list of names: every name ends up holding the value written. */
  lemma {:induction false} PutAllWrites(m: map<string, Record>, names: seq<string>, fact: Fact)
    ensures forall n :: n in names ==> PutAll(m, names, fact)[n].model == Lookup(m, n).model
    ensures forall n :: n in names && fact.VolumeFact? ==> PutAll(m, names, fact)[n].volume == Some(fact.volume)
    ensures forall n :: n in names && fact.WeightFact? ==> PutAll(m, names, fact)[n].weight == Some(fact.weight)
  {
    if names != [] {
      var init := names[..|names| - 1];
      PutAllWrites(m, init, fact);
      assert names == init + [names[|names| - 1]];
    }
  }

  /** A list of writes keeps every record consistent and under its own name. */
  lemma {:induction false} PutAllWellFormed(m: map<string, Record>, names: seq<string>, fact: Fact)
    requires WellFormed(m)
    ensures WellFormed(PutAll(m, names, fact))
  {
    if names != [] {
      PutAllWellFormed(m, names[..|names| - 1], fact);
      PutWellFormed(PutAll(m, names[..|names| - 1], fact), names[|names| - 1], fact);
    }
  }

  /** `accum`, the dictionary both file parsers write into. */
  class Accumulator {
    var records: map<string, Record>

    ghost predicate Valid()
      reads this
    {
      WellFormed(records)
    }

    /** `const accum = {}`. */
    constructor ()
      ensures Valid() && records == map[]
    {
      records := map[];
    }

    /** `recordModel`: create the record if needed, write one field, recompute the ratio when due. */
    method RecordModel(model: string, fact: Fact)
      requires Valid()
      modifies this
      ensures Valid()
      ensures records == Put(old(records), model, fact)
    {
      PutWellFormed(records, model, fact);
      ghost var before := records;
      if model !in records {
        records := records[model := NewRecord(model)];
      }
      var r := records[model];
      assert r == Lookup(before, model);
      r := match fact
        case VolumeFact(v) => r.(volume := Some(v))
        case WeightFact(w) => r.(weight := Some(w));
      if WeightTruthy(r.weight) && VolumeTruthy(r.volume) {
        r := r.(ratio := Some(Ratio(r.volume.value, r.weight.value.value)));
      }
      assert r == Update(Lookup(before, model), fact);
      assert records[model := r] == before[model := r];
      records := records[model := r];
    }

    /** `names.forEach(model => recordModel(model, key, val, accum))`. */
    method RecordEach(names: seq<string>, fact: Fact)
      requires Valid()
      modifies this
      ensures Valid()
      ensures records == PutAll(old(records), names, fact)
    {
      for i := 0 to |names|
        invariant Valid()
        invariant records == PutAll(old(records), names[..i], fact)
      {
        assert names[..i + 1][..i] == names[..i];
        RecordModel(names[i], fact);
      }
      assert names[..|names|] == names;
    }
  }
}
