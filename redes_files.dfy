/** The Redes timetable picker: the timetable files of the career are
    named "redes-<year>-<division>.xlsx"; the years and the divisions found
    in the names are offered sorted, and the first of each, in the order the
    files were listed, is selected. */
module RedesFiles {
  import opened Wrappers
  import opened Seqs
  import opened Strings
  import opened StringOrder

  /** `file.replace('.xlsx', '').split('-')`. */
  function FileParts(file: string): (parts: seq<string>)
    ensures |parts| >= 1
  {
    Split(ReplaceFirst(file, ".xlsx", ""), "-")
  }

  /** The second part of the name, `undefined` (`None`) when there is none. */
  function YearOf(file: string): Option<string> {
    var parts := FileParts(file);
    if |parts| >= 2 then Some(parts[1]) else None
  }

  /** The third part of the name, `undefined` (`None`) when there is none. */
  function DivisionOf(file: string): Option<string> {
    var parts := FileParts(file);
    if |parts| >= 3 then Some(parts[2]) else None
  }

  /** The listed files that belong to a career: those named "<career>-...". */
  function CareerFiles(files: seq<string>, carrera: string): (r: seq<string>)
    ensures forall f :: f in r <==> f in files && StartsWith(f, carrera + "-")
  {
    Filter(files, (f: string) => StartsWith(f, carrera + "-"))
  }

  /** The timetable file the loader fetches for a (lower-case) selection. */
  function FileName(year: string, division: string): string {
    "redes-" + year + "-" + division + ".xlsx"
  }

  /** The name of a career's file always has a year part. */
  lemma CareerFileHasYear(carrera: string, file: string)
    requires '.' !in carrera && StartsWith(file, carrera + "-")
    ensures YearOf(file).Some?
  {
    var n := |carrera|;
    assert file[n] == (carrera + "-")[n] == '-';
    var r := ReplaceFirst(file, ".xlsx", "");
    forall j | 0 <= j < n
      ensures file[j] != '.'
    {
      assert file[j] == (carrera + "-")[j] == carrera[j];
    }
    if Contains(file, ".xlsx") {
      var i := IndexOf(file, ".xlsx").value;
      assert file[i] == file[i..i + 5][0] == '.';
      assert r[n] == file[n];
    }
    ContainsChar(r, '-', n);
  }

  /** Reading the year and the division back from a file name gives the
      selection it was built from. */
  lemma FileNameRoundTrip(year: string, division: string)
    requires '-' !in year && '-' !in division && '.' !in year && '.' !in division
    ensures YearOf(FileName(year, division)) == Some(year)
    ensures DivisionOf(FileName(year, division)) == Some(division)
  {
    var stem := "redes-" + year + "-" + division;
    var name := FileName(year, division);
    assert name == stem + ".xlsx";
    StemHasNoDot(year, division);
    FirstExtension(stem);
    assert ReplaceFirst(name, ".xlsx", "") == stem;
    var parts := ["redes", year, division];
    assert Join(parts, "-") == stem by {
      assert Join(parts[1..], "-") == year + "-" + division by {
        assert parts[1..][1..] == [division];
      }
    }
    SplitJoin(parts, '-');
  }

  lemma StemHasNoDot(year: string, division: string)
    requires '.' !in year && '.' !in division
    ensures '.' !in "redes-" + year + "-" + division
  {
  }

  /** The extension of a name whose stem has no dot is found right after the stem. */
  lemma FirstExtension(stem: string)
    requires '.' !in stem
    ensures IndexOf(stem + ".xlsx", ".xlsx") == Some(|stem|)
  {
    var name := stem + ".xlsx";
    assert OccursAt(name, ".xlsx", |stem|) by {
      assert name[|stem|..|stem| + 5] == ".xlsx";
    }
    forall j: nat | j < |stem|
      ensures !OccursAt(name, ".xlsx", j)
    {
      assert name[j] == stem[j];
      if j + 5 <= |name| {
        assert name[j..j + 5][0] == name[j];
      }
    }
  }

  // ---------------------------------------------------------------------------
  // Scanning

  /** What the picker offers: the sorted years and divisions, and the
      selection made, if any. */
  datatype Scan = Scan(years: seq<Option<string>>, divisions: seq<Option<string>>, selected: Option<(Option<string>, Option<string>)>)

  /** The scan of a file list: the years and divisions collected into sets
      in file order, each sorted, and the first of each selected when both
      sets are non-empty. */
  function ScanOf(files: seq<string>): Scan {
    var years := Dedup(Map(files, YearOf));
    var divisions := Dedup(Map(files, DivisionOf));
    Scan(SortWithUndefined(years), SortWithUndefined(divisions),
      if |years| > 0 && |divisions| > 0 then Some((years[0], divisions[0])) else None)
  }

  /** What is offered from the parts found in a file list: each once, in
      ascending order with `undefined` last. */
  lemma OfferedParts(files: seq<string>, part: string -> Option<string>)
    ensures var offered := SortWithUndefined(Dedup(Map(files, part)));
      Distinct(offered) &&
      (forall y :: y in offered <==> exists f :: f in files && part(f) == y) &&
      (forall i :: 0 <= i < |offered| - 1 ==> offered[i].Some?) &&
      (forall i, j :: 0 <= i < j < |offered| && offered[i].Some? && offered[j].Some? ==>
        !Less(offered[j].value, offered[i].value))
  {
    SortWithUndefinedSpec(Dedup(Map(files, part)));
    forall y
      ensures y in Map(files, part) <==> exists f :: f in files && part(f) == y
    {
      MapMember(files, part, y);
    }
  }

  /** Every year of a listed file is offered once, in ascending order with
      `undefined` last. */
  lemma ScanYears(files: seq<string>)
    ensures var years := ScanOf(files).years;
      Distinct(years) &&
      (forall y :: y in years <==> exists f :: f in files && YearOf(f) == y) &&
      (forall i :: 0 <= i < |years| - 1 ==> years[i].Some?) &&
      (forall i, j :: 0 <= i < j < |years| && years[i].Some? && years[j].Some? ==>
        !Less(years[j].value, years[i].value))
  {
    OfferedParts(files, YearOf);
  }

  /** Every division of a listed file is offered once, in ascending order
      with `undefined` last. */
  lemma ScanDivisions(files: seq<string>)
    ensures var divisions := ScanOf(files).divisions;
      Distinct(divisions) &&
      (forall d :: d in divisions <==> exists f :: f in files && DivisionOf(f) == d) &&
      (forall i :: 0 <= i < |divisions| - 1 ==> divisions[i].Some?) &&
      (forall i, j :: 0 <= i < j < |divisions| && divisions[i].Some? && divisions[j].Some? ==>
        !Less(divisions[j].value, divisions[i].value))
  {
    OfferedParts(files, DivisionOf);
  }

  /** The selection is the first file's year and division, which need not
      be the first offered; with no files nothing is selected. */
  lemma ScanSelects(files: seq<string>)
    ensures ScanOf(files).selected == if files == [] then None else Some((YearOf(files[0]), DivisionOf(files[0])))
  {
    if files != [] {
      DedupHead(Map(files, YearOf));
      DedupHead(Map(files, DivisionOf));
    }
  }

  /** Scanning only the career's files never offers an undefined year. */
  lemma CareerScanHasYears(files: seq<string>)
    ensures None !in ScanOf(CareerFiles(files, "redes")).years
  {
    var career := CareerFiles(files, "redes");
    OfferedParts(career, YearOf);
    forall f | f in career
      ensures YearOf(f).Some?
    {
      CareerFileHasYear("redes", f);
    }
  }

  /** `scanHorarios` once the file list is fetched. */
  method ScanHorarios(files: seq<string>) returns (scan: Scan)
    ensures scan == ScanOf(files)
  {
    var years: seq<Option<string>> := [];
    var divisions: seq<Option<string>> := [];
    for i := 0 to |files|
      invariant years == Dedup(Map(files[..i], YearOf))
      invariant divisions == Dedup(Map(files[..i], DivisionOf))
    {
      var file := files[i];
      var year := YearOf(file);
      var division := DivisionOf(file);
      MapSnoc(files, i);
      DedupSnoc(Map(files[..i], YearOf), year);
      DedupSnoc(Map(files[..i], DivisionOf), division);
      if year !in years {
        years := years + [year];
      }
      if division !in divisions {
        divisions := divisions + [division];
      }
    }
    assert files[..|files|] == files;
    var selected: Option<(Option<string>, Option<string>)> := None;
    if |years| > 0 && |divisions| > 0 {
      selected := Some((years[0], divisions[0]));
    }
    scan := Scan(SortWithUndefined(years), SortWithUndefined(divisions), selected);
  }

  lemma MapSnoc(files: seq<string>, i: nat)
    requires i < |files|
    ensures Map(files[..i + 1], YearOf) == Map(files[..i], YearOf) + [YearOf(files[i])]
    ensures Map(files[..i + 1], DivisionOf) == Map(files[..i], DivisionOf) + [DivisionOf(files[i])]
  {
  }
}
