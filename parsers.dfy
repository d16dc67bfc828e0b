/**
 The four parsers of units.c. Each scans its name table in ascending unit
 order, compares the argument with every spelling of the unit, stops at the
 first match and otherwise ends with the kind's sentinel. Length and
 temperature units have two spellings each, time and mass units three.
 */
module Parsers {
  import opened Registry

  method ParseSmaUnit(smaUnits: NameTable, arg: string) returns (r: int)
    requires Valid(smaUnits) && smaUnits.variants == 2
    ensures r == Parse(smaUnits, arg)
  {
    // C leaves r unassigned until the first iteration; count >= 1 makes that harmless
    r := smaUnits.noUnit;
    for i := 0 to smaUnits.count
      invariant ParseFrom(smaUnits, arg, i) == Parse(smaUnits, arg)
      invariant r == smaUnits.noUnit
    {
      if Variant(smaUnits, i, 0) == arg {
        r := i;
        break;
      } else if Variant(smaUnits, i, 1) == arg {
        r := i;
        break;
      } else {
        r := smaUnits.noUnit;
      }
    }
  }

  method ParsePerUnit(perUnits: NameTable, arg: string) returns (r: int)
    requires Valid(perUnits) && perUnits.variants == 3
    ensures r == Parse(perUnits, arg)
  {
    r := perUnits.noUnit;
    for i := 0 to perUnits.count
      invariant ParseFrom(perUnits, arg, i) == Parse(perUnits, arg)
      invariant r == perUnits.noUnit
    {
      if Variant(perUnits, i, 0) == arg {
        r := i;
        break;
      } else if Variant(perUnits, i, 1) == arg {
        r := i;
        break;
      } else if Variant(perUnits, i, 2) == arg {
        r := i;
        break;
      } else {
        r := perUnits.noUnit;
      }
    }
  }

  method ParseMassUnit(massUnits: NameTable, arg: string) returns (r: int)
    requires Valid(massUnits) && massUnits.variants == 3
    ensures r == Parse(massUnits, arg)
  {
    r := massUnits.noUnit;
    for i := 0 to massUnits.count
      invariant ParseFrom(massUnits, arg, i) == Parse(massUnits, arg)
      invariant r == massUnits.noUnit
    {
      if Variant(massUnits, i, 0) == arg {
        r := i;
        break;
      } else if Variant(massUnits, i, 1) == arg {
        r := i;
        break;
      } else if Variant(massUnits, i, 2) == arg {
        r := i;
        break;
      } else {
        r := massUnits.noUnit;
      }
    }
  }

  method ParseTempUnit(tempUnits: NameTable, arg: string) returns (r: int)
    requires Valid(tempUnits) && tempUnits.variants == 2
    ensures r == Parse(tempUnits, arg)
  {
    r := tempUnits.noUnit;
    for i := 0 to tempUnits.count
      invariant ParseFrom(tempUnits, arg, i) == Parse(tempUnits, arg)
      invariant r == tempUnits.noUnit
    {
      if Variant(tempUnits, i, 0) == arg {
        r := i;
        break;
      } else if Variant(tempUnits, i, 1) == arg {
        r := i;
        break;
      } else {
        r := tempUnits.noUnit;
      }
    }
  }
}
