/** When the asset post-processor regenerates the code: after an import,
    a deletion or a move whose path list starts under the watched folder. */
module Postprocess {
  import opened Strings

  /** The folder whose changes trigger regeneration. */
  const WatchedPrefix: string := "Assets/Resources/"

  /** `IsGenerateCodeRequired`: only the first path of the list is looked at.
      It fires only for a list with a path under the watched folder. */
  predicate IsGenerateCodeRequired(assets: seq<string>): (r: bool)
    ensures r ==> AnyUnderWatchedFolder(assets)
  {
    |assets| != 0 && StartsWith(assets[0], WatchedPrefix)
  }

  /** `OnPostprocessAllAssets`: whether `GenerateCode` is called. It is
      called only when some changed path lies under the watched folder. */
  predicate OnPostprocessAllAssets(importedAssets: seq<string>, deletedAssets: seq<string>,
                                   movedAssets: seq<string>, movedFromAssetPaths: seq<string>): (r: bool)
    ensures r ==> ShouldRegenerate(importedAssets, deletedAssets, movedAssets, movedFromAssetPaths)
  {
    IsGenerateCodeRequired(importedAssets)
    || IsGenerateCodeRequired(deletedAssets)
    || IsGenerateCodeRequired(movedAssets)
  }

  /** Only the first entry of a list decides: any two lists with the same
      first entry (or both empty) give the same answer, whatever follows. */
  lemma OnlyFirstEntryInspected(a: seq<string>, b: seq<string>)
    requires |a| == 0 <==> |b| == 0
    requires |a| != 0 ==> a[0] == b[0]
    ensures IsGenerateCodeRequired(a) == IsGenerateCodeRequired(b)
  {
  }

  /** The paths that were moved away from are never consulted. */
  lemma MovedFromIgnored(imported: seq<string>, deleted: seq<string>, moved: seq<string>,
                         from1: seq<string>, from2: seq<string>)
    ensures OnPostprocessAllAssets(imported, deleted, moved, from1)
         == OnPostprocessAllAssets(imported, deleted, moved, from2)
  {
  }

  /** Some path of the list lies under the watched folder. */
  predicate AnyUnderWatchedFolder(paths: seq<string>) {
    exists i :: 0 <= i < |paths| && StartsWith(paths[i], WatchedPrefix)
  }

  /** The first-entry test is sound but not complete: it never fires for a
      list with nothing under the watched folder, yet misses lists whose
      watched path is not the first. */
  lemma {:induction false} FirstEntryTestIsIncomplete(paths: seq<string>)
    ensures IsGenerateCodeRequired(paths) ==> AnyUnderWatchedFolder(paths)
    ensures var batch := ["Assets/Scripts/Player.cs", "Assets/Resources/Icon.png"];
      AnyUnderWatchedFolder(batch) && !IsGenerateCodeRequired(batch)
  {
    var batch := ["Assets/Scripts/Player.cs", "Assets/Resources/Icon.png"];
    assert StartsWith(batch[1], WatchedPrefix);
    assert batch[0][7] == 'S' && WatchedPrefix[7] == 'R';
    if IsGenerateCodeRequired(paths) {
      assert StartsWith(paths[0], WatchedPrefix);
    }
  }

  /** A batch whose first path is elsewhere is not acted upon, and neither is
      a move out of the watched folder. */
  lemma MissedBatches()
    ensures !OnPostprocessAllAssets(["Assets/Scripts/Player.cs", "Assets/Resources/Icon.png"], [], [], [])
    ensures !OnPostprocessAllAssets([], [], ["Assets/Art/Icon.png"], ["Assets/Resources/Icon.png"])
  {
    FirstEntryTestIsIncomplete([]);
    assert "Assets/Art/Icon.png"[7] == 'A' && WatchedPrefix[7] == 'R';
  }

  /** The evidently intended trigger: any imported, deleted, moved or
      moved-from path under the watched folder. */
  predicate ShouldRegenerate(importedAssets: seq<string>, deletedAssets: seq<string>,
                             movedAssets: seq<string>, movedFromAssetPaths: seq<string>)
  {
    AnyUnderWatchedFolder(importedAssets)
    || AnyUnderWatchedFolder(deletedAssets)
    || AnyUnderWatchedFolder(movedAssets)
    || AnyUnderWatchedFolder(movedFromAssetPaths)
  }

  /** The intended trigger fires whenever the source's does, and on every
      change that touches the watched folder. */
  lemma {:induction false} ShouldRegenerateCoversChanges(imported: seq<string>, deleted: seq<string>,
                                                         moved: seq<string>, movedFrom: seq<string>,
                                                         path: string)
    requires path in imported || path in deleted || path in moved || path in movedFrom
    requires StartsWith(path, WatchedPrefix)
    ensures ShouldRegenerate(imported, deleted, moved, movedFrom)
    ensures OnPostprocessAllAssets(imported, deleted, moved, movedFrom)
        ==> ShouldRegenerate(imported, deleted, moved, movedFrom)
  {
    FirstEntryTestIsIncomplete(imported);
    FirstEntryTestIsIncomplete(deleted);
    FirstEntryTestIsIncomplete(moved);
    if path in imported {
      var i :| 0 <= i < |imported| && imported[i] == path;
    } else if path in deleted {
      var i :| 0 <= i < |deleted| && deleted[i] == path;
    } else if path in moved {
      var i :| 0 <= i < |moved| && moved[i] == path;
    } else {
      var i :| 0 <= i < |movedFrom| && movedFrom[i] == path;
    }
  }
}
