/**
 * `getTextureForLine`: resolves a page name written in the atlas text against
 * the dropped images' object URLs, first exactly, then ignoring case.
 */
module TextureResolver {
  import opened Wrappers
  import opened Text
  import opened Table

  /** The texture handle the rendering library builds from an object URL (`BaseTexture.from`). */
  datatype Texture = TextureFrom(url: string)

  /** Position of the first key whose lower-cased form equals `lowered`, in iteration order. */
  function FirstFolded(keys: seq<string>, lowered: string): (r: Option<nat>)
    ensures r.Some? ==> r.value < |keys| && ToLower(keys[r.value]) == lowered
    ensures r.Some? ==> forall j :: 0 <= j < r.value ==> ToLower(keys[j]) != lowered
    ensures r.None? ==> forall j :: 0 <= j < |keys| ==> ToLower(keys[j]) != lowered
  {
    if keys == [] then None
    else if ToLower(keys[0]) == lowered then Some(0)
    else match FirstFolded(keys[1..], lowered)
      case None => None
      case Some(i) => Some(i + 1)
  }

  /** `fileURLs[line]` is present and truthy (a non-empty URL). */
  predicate ExactHit(fileUrls: Table<string>, line: string) {
    line in fileUrls.values && fileUrls.values[line] != ""
  }

  /**
   * The texture for atlas page `line`: the exact key when it holds a truthy URL,
   * else the first key, in iteration order, equal to `line` ignoring case,
   * else none.
   */
  function GetTextureForLine(fileUrls: Table<string>, line: string): (r: Option<Texture>)
    requires Valid(fileUrls)
    ensures ExactHit(fileUrls, line) ==> r == Some(TextureFrom(fileUrls.values[line]))
    ensures !ExactHit(fileUrls, line) ==>
      (r.None? <==> forall j :: 0 <= j < |fileUrls.keys| ==> ToLower(fileUrls.keys[j]) != ToLower(line))
    ensures !ExactHit(fileUrls, line) && r.Some? ==>
      exists i :: 0 <= i < |fileUrls.keys| && ToLower(fileUrls.keys[i]) == ToLower(line)
        && r == Some(TextureFrom(fileUrls.values[fileUrls.keys[i]]))
        && forall j :: 0 <= j < i ==> ToLower(fileUrls.keys[j]) != ToLower(line)
  {
    if ExactHit(fileUrls, line) then Some(TextureFrom(fileUrls.values[line]))
    else match FirstFolded(fileUrls.keys, ToLower(line))
      case None => None
      case Some(i) => Some(TextureFrom(fileUrls.values[fileUrls.keys[i]]))
  }

  /**
   * When exactly one image name equals the page name ignoring case, the page
   * resolves to that image, whether or not the case matches.
   */
  lemma ResolvesIgnoringCase(fileUrls: Table<string>, line: string, name: string)
    requires Valid(fileUrls)
    requires name in fileUrls.values && fileUrls.values[name] != ""
    requires ToLower(name) == ToLower(line)
    requires forall k :: k in fileUrls.values && k != name ==> ToLower(k) != ToLower(line)
    ensures GetTextureForLine(fileUrls, line) == Some(TextureFrom(fileUrls.values[name]))
  {
    if !ExactHit(fileUrls, line) {
      var i := FirstFolded(fileUrls.keys, ToLower(line));
      var k :| 0 <= k < |fileUrls.keys| && fileUrls.keys[k] == name;
      assert i.Some?;
      assert fileUrls.keys[i.value] in fileUrls.values;
    }
  }

  /** Page "hero.png" and image "Hero.png" are equal ignoring case; "Villain.png" is not. */
  lemma HeroFolding()
    ensures ToLower("Hero.png") == ToLower("hero.png")
    ensures ToLower("Villain.png") != ToLower("hero.png")
  {
    var hero, line := ToLower("Hero.png"), ToLower("hero.png");
    assert forall i | 0 <= i < 8 :: hero[i] == line[i];
  }

  /** The images of the example: "Hero.png" only. */
  function HeroImages(): Table<string> {
    Table(["Hero.png"], map["Hero.png" := "blob:hero"])
  }

  /** Page "hero.png" resolves to the image "Hero.png" although the case differs. */
  lemma HeroExample()
    ensures GetTextureForLine(HeroImages(), "hero.png") == Some(TextureFrom("blob:hero"))
  {
    var t := HeroImages();
    assert Valid(t);
    assert "hero.png"[0] != "Hero.png"[0];
    assert !ExactHit(t, "hero.png");
    HeroFolding();
    assert FirstFolded(t.keys, ToLower("hero.png")) == Some(0);
  }

  /** Page "Villain.png" matches no image, even ignoring case. */
  lemma VillainExample()
    ensures GetTextureForLine(HeroImages(), "Villain.png") == None
  {
    var t := HeroImages();
    assert Valid(t);
    assert "Villain.png"[0] != "Hero.png"[0];
    assert !ExactHit(t, "Villain.png");
    HeroFolding();
  }
}
