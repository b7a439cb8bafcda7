/** `get_available_hierarchy_languages` (class-https.php lines 202-211):
    the language codes of the `.mo` files in a directory, that is their
    base names without `.mo`, leaving out names that start with
    `continents-cities` or `ms-`. The directory listing is a parameter. */
module Languages {
  import opened Wrappers
  import opened Php

  /** The code of one language file: `basename($lang_file, '.mo')`. */
  function LanguageCode(file: string): string
  {
    Basename(file, ".mo")
  }

  /** The filter of line 207: the code starts with neither
      `continents-cities` nor `ms-`. */
  predicate Listed(code: string)
  {
    !StartsWith(code, "continents-cities") && !StartsWith(code, "ms-")
  }

  /** `(array)glob(...)`: the matching paths, or, when `glob` fails and
      returns `false`, the one-element array `[false]`, whose element
      `basename` reads as the empty string. */
  function GlobEntries(glob: Option<seq<string>>): seq<string>
  {
    if glob.Some? then glob.value else [""]
  }

  /** The list the loop builds from `files`. */
  function Languages(files: seq<string>): seq<string>
  {
    if files == [] then []
    else
      var code := LanguageCode(files[|files| - 1]);
      Languages(files[..|files| - 1]) + (if Listed(code) then [code] else [])
  }

  /** The loop of lines 205-209. */
  method AvailableLanguages(glob: Option<seq<string>>) returns (languages: seq<string>)
    ensures languages == Languages(GlobEntries(glob))
  {
    var files := GlobEntries(glob);
    languages := [];
    var i := 0;
    while i < |files|
      invariant 0 <= i <= |files|
      invariant languages == Languages(files[..i])
    {
      var langFile := LanguageCode(files[i]);
      LanguagesStep(files, i);
      if Listed(langFile) {
        languages := languages + [langFile];
      }
      i := i + 1;
    }
    assert files[..i] == files;
  }

  /** One more file extends the list by its code, if that passes the
      filter. */
  lemma LanguagesStep(files: seq<string>, i: nat)
    requires i < |files|
    ensures Languages(files[..i + 1]) ==
      Languages(files[..i]) + (if Listed(LanguageCode(files[i])) then [LanguageCode(files[i])] else [])
  {
    assert files[..i + 1][..i] == files[..i];
  }

  /** Every listed code passes the filter and is the code of one of the
      files. */
  lemma {:induction false} LanguagesSound(files: seq<string>, x: string)
    requires x in Languages(files)
    ensures Listed(x) && exists f :: f in files && LanguageCode(f) == x
  {
    var init := files[..|files| - 1];
    var last := files[|files| - 1];
    if x in Languages(init) {
      LanguagesSound(init, x);
      var f :| f in init && LanguageCode(f) == x;
      assert f in files;
    } else {
      assert last in files;
    }
  }

  /** Every file whose code passes the filter contributes that code. */
  lemma {:induction false} LanguagesComplete(files: seq<string>, f: string)
    requires f in files && Listed(LanguageCode(f))
    ensures LanguageCode(f) in Languages(files)
  {
    var init := files[..|files| - 1];
    if f != files[|files| - 1] {
      assert files == init + [files[|files| - 1]];
      assert f in init;
      LanguagesComplete(init, f);
    }
  }

  /** A code is in the list exactly when it is the code of one of the
      files and passes the filter. */
  lemma LanguagesMembers(files: seq<string>, x: string)
    ensures x in Languages(files) <==> Listed(x) && exists f :: f in files && LanguageCode(f) == x
  {
    if x in Languages(files) {
      LanguagesSound(files, x);
    }
    if Listed(x) && exists f :: f in files && LanguageCode(f) == x {
      var f :| f in files && LanguageCode(f) == x;
      LanguagesComplete(files, f);
    }
  }

  /** The list keeps the order of the files: listing two directories'
      worth of files is listing each in turn. */
  lemma {:induction false} LanguagesAppend(a: seq<string>, b: seq<string>)
    ensures Languages(a + b) == Languages(a) + Languages(b)
    decreases |b|
  {
    if b == [] {
      assert a + b == a;
    } else {
      var init := b[..|b| - 1];
      assert (a + b)[..|a + b| - 1] == a + init;
      assert (a + b)[|a + b| - 1] == b[|b| - 1];
      LanguagesAppend(a, init);
    }
  }

  /** At most one code per file. */
  lemma {:induction false} LanguagesLength(files: seq<string>)
    ensures |Languages(files)| <= |files|
  {
    if files != [] {
      LanguagesLength(files[..|files| - 1]);
    }
  }

  /** A file `dir/code.mo` gives `code`, unless the filter drops it. */
  lemma LanguageFile(dir: string, code: string)
    requires code != [] && '/' !in code
    ensures Languages([dir + "/" + code + ".mo"]) == if Listed(code) then [code] else []
  {
    BasenameOfFile(dir, code, ".mo");
    assert [dir + "/" + code + ".mo"][..0] == [];
  }

  /** When `glob` fails the list holds one empty code. */
  lemma GlobFailure()
    ensures Languages(GlobEntries(None)) == [""]
  {
    assert LanguageCode("") == "";
    assert [""][..0] == [];
  }
}
