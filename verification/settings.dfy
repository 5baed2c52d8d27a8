/**
 * The persistent settings of `settings.rs`. Every public operation loads
 * the settings file, changes the loaded value and writes it back. The file
 * is a field that is missing, unreadable, or holding a settings value;
 * paths, directory creation and the TOML encoding are not modelled.
 */
module Settings {
  import opened Ordering

  /** `Settings`: the window geometry, the last pipeline, the favourites and the pane positions. */
  datatype SettingsValue = SettingsValue(
    appMaximized: bool, appWidth: int, appHeight: int, recentPipeline: string,
    favorites: seq<string>, panedPositions: map<string, int>, preferences: map<string, string>)

  /** `Settings::default`: zero sizes and nothing stored. */
  function DefaultValue(): (s: SettingsValue)
    ensures !s.appMaximized && s.appWidth == 0 && s.appHeight == 0
    ensures s.recentPipeline == "" && s.favorites == []
    ensures s.panedPositions == map[] && s.preferences == map[]
  {
    SettingsValue(false, 0, 0, "", [], map[], map[])
  }

  /** The settings file: absent (or not a regular file), present but not parseable, or holding settings. */
  datatype SettingsFile = Missing | Unreadable | Stored(value: SettingsValue)

  /** The pane positions a first start uses. */
  const InitialPanes: map<string, int> := map[
    "graph_dashboard-paned" := 600, "graph_logs-paned" := 400,
    "elements_preview-paned" := 300, "elements_properties-paned" := 150,
    "playcontrols_position-paned" := 400]

  /** What `load_settings` yields for a given file. */
  function Loaded(file: SettingsFile): SettingsValue
  {
    match file
    case Stored(v) => v
    case Unreadable => DefaultValue()
    case Missing => DefaultValue().(appWidth := 800, appHeight := 600, panedPositions := InitialPanes)
  }

  /** The favourites without any entry equal to `favorite`, in their order. */
  function Retained(favorites: seq<string>, favorite: string): seq<string>
  {
    if favorites == [] then []
    else
      var last := favorites[|favorites| - 1];
      Retained(favorites[..|favorites| - 1], favorite) + (if last != favorite then [last] else [])
  }

  /** The favourites `add_favorite` writes: the old ones sorted, then the new one. */
  function WithFavorite(favorites: seq<string>, favorite: string): seq<string>
  {
    Sort(StrLe, favorites) + [favorite]
  }

  class SettingsStore {
    var file: SettingsFile

    constructor (file: SettingsFile)
      ensures this.file == file
    {
      this.file := file;
    }

    /**
     * `load_settings`: the stored value; the default value when the file
     * does not parse; and without a file, an 800 by 600 window with the
     * five initial pane positions.
     */
    method LoadSettings() returns (s: SettingsValue)
      ensures s == Loaded(file)
      ensures file.Missing? ==> s.appWidth == 800 && s.appHeight == 600 && s.panedPositions == InitialPanes
      ensures file.Missing? ==> s.favorites == [] && s.recentPipeline == ""
    {
      match file {
        case Stored(v) =>
          s := v;
        case Unreadable =>
          s := DefaultValue();
        case Missing =>
          s := DefaultValue().(appWidth := 800, appHeight := 600);
          s := s.(panedPositions := s.panedPositions["graph_dashboard-paned" := 600]);
          s := s.(panedPositions := s.panedPositions["graph_logs-paned" := 400]);
          s := s.(panedPositions := s.panedPositions["elements_preview-paned" := 300]);
          s := s.(panedPositions := s.panedPositions["elements_properties-paned" := 150]);
          s := s.(panedPositions := s.panedPositions["playcontrols_position-paned" := 400]);
      }
    }

    /** `save_settings`: the file now holds `s`. */
    method SaveSettings(s: SettingsValue)
      modifies this
      ensures file == Stored(s)
    {
      file := Stored(s);
    }

    /** `set_recent_pipeline_description`: only the recent pipeline changes. */
    method SetRecentPipelineDescription(pipeline: string)
      modifies this
      ensures file == Stored(Loaded(old(file)).(recentPipeline := pipeline))
    {
      var settings := LoadSettings();
      settings := settings.(recentPipeline := pipeline);
      SaveSettings(settings);
    }

    /** `recent_pipeline_description`: the stored recent pipeline. */
    method RecentPipelineDescription() returns (pipeline: string)
      ensures pipeline == Loaded(file).recentPipeline
    {
      var settings := LoadSettings();
      pipeline := settings.recentPipeline;
    }

    /**
     * `add_favorite`: the stored favourites are sorted and the new one is
     * appended after them, even when it is already there.
     */
    method AddFavorite(favorite: string)
      modifies this
      ensures file == Stored(Loaded(old(file)).(favorites := WithFavorite(Loaded(old(file)).favorites, favorite)))
    {
      var settings := LoadSettings();
      var sorted := Sort(StrLe, settings.favorites);
      settings := settings.(favorites := sorted + [favorite]);
      SaveSettings(settings);
    }

    /** `remove_favorite`: every entry equal to the name goes, the rest stay in order. */
    method RemoveFavorite(favorite: string)
      modifies this
      ensures file == Stored(Loaded(old(file)).(favorites := Retained(Loaded(old(file)).favorites, favorite)))
    {
      var settings := LoadSettings();
      var kept := Retain(settings.favorites, favorite);
      settings := settings.(favorites := kept);
      SaveSettings(settings);
    }

    /** `favorites_list`: a copy of the stored favourites, in stored order. */
    method FavoritesList() returns (favorites: seq<string>)
      ensures favorites == Loaded(file).favorites
    {
      favorites := [];
      var settings := LoadSettings();
      var i := 0;
      while i < |settings.favorites|
        invariant 0 <= i <= |settings.favorites|
        invariant favorites == settings.favorites[..i]
      {
        favorites := favorites + [settings.favorites[i]];
        i := i + 1;
      }
    }
  }

  /** `Vec::retain` with `x != favorite`: one pass keeping the other entries. */
  method Retain(favorites: seq<string>, favorite: string) returns (kept: seq<string>)
    ensures kept == Retained(favorites, favorite)
  {
    kept := [];
    var i := 0;
    while i < |favorites|
      invariant 0 <= i <= |favorites|
      invariant kept == Retained(favorites[..i], favorite)
    {
      assert favorites[..i + 1][..i] == favorites[..i];
      if favorites[i] != favorite {
        kept := kept + [favorites[i]];
      }
      i := i + 1;
    }
    assert favorites[..i] == favorites;
  }

  /**
   * Removing a favourite drops every copy of it and nothing else: each
   * other name keeps its number of occurrences.
   */
  lemma {:induction false} RetainedCounts(favorites: seq<string>, favorite: string)
    ensures multiset(Retained(favorites, favorite))[favorite] == 0
    ensures forall x :: x != favorite ==> multiset(Retained(favorites, favorite))[x] == multiset(favorites)[x]
    ensures |Retained(favorites, favorite)| == |favorites| - multiset(favorites)[favorite]
  {
    if favorites != [] {
      var front, last := favorites[..|favorites| - 1], favorites[|favorites| - 1];
      RetainedCounts(front, favorite);
      assert favorites == front + [last];
    }
  }

  /** Removing distributes over concatenation. */
  lemma {:induction false} RetainedAppend(a: seq<string>, b: seq<string>, favorite: string)
    ensures Retained(a + b, favorite) == Retained(a, favorite) + Retained(b, favorite)
    decreases |b|
  {
    if b == [] {
      assert a + b == a;
    } else {
      var front := b[..|b| - 1];
      assert (a + b)[..|a + b| - 1] == a + front;
      assert (a + b)[|a + b| - 1] == b[|b| - 1];
      RetainedAppend(a, front, favorite);
    }
  }

  /** Removing twice is removing once. */
  lemma {:induction false} RetainedIdempotent(favorites: seq<string>, favorite: string)
    ensures Retained(Retained(favorites, favorite), favorite) == Retained(favorites, favorite)
  {
    if favorites != [] {
      var front, last := favorites[..|favorites| - 1], favorites[|favorites| - 1];
      RetainedIdempotent(front, favorite);
      var tail := if last != favorite then [last] else [];
      RetainedAppend(Retained(front, favorite), tail, favorite);
    }
  }

  lemma StrLeTotalOrder()
    ensures TotalOrder(StrLe)
  {
    StrLeLaws();
  }

  /**
   * Adding keeps every earlier favourite, sorted, and puts the new one
   * last; removing it again gives back the sorted earlier favourites
   * without that name.
   */
  lemma AddThenRemoveFavorite(favorites: seq<string>, favorite: string)
    ensures SortedBy(StrLe, WithFavorite(favorites, favorite)[..|favorites|])
    ensures multiset(WithFavorite(favorites, favorite)) == multiset(favorites) + multiset{favorite}
    ensures WithFavorite(favorites, favorite)[|favorites|] == favorite
    ensures Retained(WithFavorite(favorites, favorite), favorite) == Retained(Sort(StrLe, favorites), favorite)
  {
    StrLeTotalOrder();
    SortCorrect(StrLe, favorites);
    var sorted := Sort(StrLe, favorites);
    assert WithFavorite(favorites, favorite)[..|favorites|] == sorted;
    RetainedAppend(sorted, [favorite], favorite);
    assert Retained([favorite], favorite) == [] by {
      assert [favorite][..0] == [];
    }
  }
}
