// The literal tables of the genre tokenizer's splitBagOfWords: the tokens it
// drops and the three token maps, and the predicates that say what a clean
// token is.

module GenreMaps {
  /** The tokens that are dropped after splitting. */
  const DropTokens: set<string> :=
    {"", "-", ";", "with", "influences", "elements", "of", "and", "music"}

  /** A token map of splitBagOfWords: a token and the tokens it becomes. */
  type TokenMap = map<string, seq<string>>

  /** map_tokens */
  const MapTokens: TokenMap := map[
    "core" := ["hardcore"],
    "ebm-gothic" := ["ebm", "gothic"],
    "electro" := ["electronic"],
    "electronica" := ["electronic"],
    "electronics" := ["electronic"],
    "hop" := ["hip-hop"],
    "neoclassical" := ["neoclassic"],
    "operatic" := ["opera"],
    "post-" := ["post"],
    "stone" := ["stoner"]]

  /** map_core */
  const MapCore: TokenMap := map[
    "blackened" := ["black"],
    "breakcore" := ["electronic", "dance", "hardcore"],
    "cybergrind" := ["electronic", "hardcore"],
    "crustcore" := ["crust", "hardcore"],
    "darkwave" := ["dark", "wave"],
    "deathrock" := ["death", "metal", "rock"],
    "goregrind" := ["gore", "grind"],
    "jazz-fusion" := ["jazz", "fusion"],
    "mathcore" := ["math", "hardcore"],
    "neoclassic" := ["new", "classic"],
    "noisecore" := ["noise", "hardcore"],
    "noisegrid" := ["noise", "grind"],
    "post-black" := ["post", "black"],
    "post-doom" := ["post", "doom"],
    "post-grunge" := ["post", "grunge"],
    "post-hardcore" := ["post", "hardcore"],
    "post-industrial" := ["post", "industrial"],
    "post-metal" := ["post", "metal"],
    "post-punk" := ["post", "punk"],
    "post-rock" := ["post", "rock"],
    "post-sludge" := ["post", "sludge"],
    "powerviolence" := ["power", "violence"],
    "psychobilly" := ["punk", "rockabilly"],
    "slowcore" := ["downtempo", "core"],
    "synthpop" := ["synth", "pop"],
    "synthwave" := ["synth", "wave"],
    "thrashcore" := ["thrash", "core"],
    "trip-hop" := ["trip", "hip-hop", "downtempo"]]

  /** even_the_big_boys */
  const EvenTheBigBoys: TokenMap := map[
    "deathcore" := ["deathcore", "death", "metal", "hardcore"],
    "grindcore" := ["grindcore", "grind", "hardcore"],
    "metalcore" := ["metalcore", "metal", "hardcore"]]

  /** What every token that comes out of splitBagOfWords looks like. */
  predicate GoodToken(t: string) {
    ' ' !in t && '/' !in t && t !in DropTokens
  }

  predicate AllGoodTokens(tokens: seq<string>) {
    forall i :: 0 <= i < |tokens| ==> GoodToken(tokens[i])
  }

  predicate GoodMap(m: TokenMap) {
    forall t :: t in m ==> AllGoodTokens(m[t])
  }

  /** Every token the three maps produce, in alphabetical order, split in
      four so that each part is checked on its own. */
  const OutputWords1: set<string> :=
    {"black", "classic", "core", "crust", "dance", "dark", "death",
     "deathcore", "doom", "downtempo", "ebm"}

  const OutputWords2: set<string> :=
    {"electronic", "fusion", "gore", "gothic", "grind", "grindcore",
     "grunge", "hardcore", "hip-hop", "industrial", "jazz"}

  const OutputWords3: set<string> :=
    {"math", "metal", "metalcore", "neoclassic", "new", "noise", "opera",
     "pop", "post", "power"}

  const OutputWords4: set<string> :=
    {"punk", "rock", "rockabilly", "sludge", "stoner", "synth", "thrash",
     "trip", "violence", "wave"}

  /** A token is one of the words the maps produce. */
  predicate OutputWord(w: string) {
    w in OutputWords1 || w in OutputWords2 || w in OutputWords3 || w in OutputWords4
  }
}
