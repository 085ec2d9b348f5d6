/**
 * Terrain generation (src/App.js:62-84): the grid is cut into 5x5 blocks,
 * each block draws LAND or WATER once (`Math.random() < 0.7` gives WATER),
 * and every cell takes its block's terrain. The random draws are an input:
 * `draws[rb][cb]` is the number drawn for block (rb, cb), in [0, 1).
 */
module TerrainGen {
  import opened Ecosystem

  /** The terrain a block gets from its draw. */
  function BlockTerrain(draw: real): Terrain {
    if draw < 0.7 then Water else Land
  }

  /** `Math.ceil(gridSize / terrainBlockSize)`. */
  function NumBlocks(n: nat): (nb: nat)
    ensures TERRAIN_BLOCK_SIZE * nb - TERRAIN_BLOCK_SIZE < n <= TERRAIN_BLOCK_SIZE * nb
  {
    (n + TERRAIN_BLOCK_SIZE - 1) / TERRAIN_BLOCK_SIZE
  }

  /** Every cell index of an n-wide grid falls in one of the NumBlocks(n) blocks. */
  lemma BlockIndexInRange(n: nat, r: nat)
    requires r < n
    ensures r / TERRAIN_BLOCK_SIZE < NumBlocks(n)
  {
  }

  /** Fills the block matrix, then every cell of the n-by-n terrain map from its block. */
  method GenerateTerrain(n: nat, draws: seq<seq<real>>) returns (tg: TerrainMap)
    requires IsSquare(draws, NumBlocks(n))
    ensures IsSquare(tg, n)
    ensures forall r, c :: 0 <= r < n && 0 <= c < n ==>
      tg[r][c] == BlockTerrain(draws[r / TERRAIN_BLOCK_SIZE][c / TERRAIN_BLOCK_SIZE])
    ensures forall r1, c1, r2, c2 ::
      0 <= r1 < n && 0 <= c1 < n && 0 <= r2 < n && 0 <= c2 < n &&
      r1 / TERRAIN_BLOCK_SIZE == r2 / TERRAIN_BLOCK_SIZE && c1 / TERRAIN_BLOCK_SIZE == c2 / TERRAIN_BLOCK_SIZE
      ==> tg[r1][c1] == tg[r2][c2]
  {
    var numBlocks := NumBlocks(n);
    var blockTerrain: seq<seq<Terrain>> := [];
    var rBlock := 0;
    while rBlock < numBlocks
      invariant 0 <= rBlock <= numBlocks
      invariant |blockTerrain| == rBlock
      invariant forall i :: 0 <= i < rBlock ==> |blockTerrain[i]| == numBlocks
      invariant forall i, j :: 0 <= i < rBlock && 0 <= j < numBlocks ==>
        blockTerrain[i][j] == BlockTerrain(draws[i][j])
    {
      var row: seq<Terrain> := [];
      var cBlock := 0;
      while cBlock < numBlocks
        invariant 0 <= cBlock <= numBlocks
        invariant |row| == cBlock
        invariant forall j :: 0 <= j < cBlock ==> row[j] == BlockTerrain(draws[rBlock][j])
      {
        row := row + [if draws[rBlock][cBlock] < 0.7 then Water else Land];
        cBlock := cBlock + 1;
      }
      blockTerrain := blockTerrain + [row];
      rBlock := rBlock + 1;
    }

    tg := [];
    var r := 0;
    while r < n
      invariant 0 <= r <= n
      invariant |tg| == r
      invariant forall i :: 0 <= i < r ==> |tg[i]| == n
      invariant forall i, j :: 0 <= i < r && 0 <= j < n ==>
        tg[i][j] == BlockTerrain(draws[i / TERRAIN_BLOCK_SIZE][j / TERRAIN_BLOCK_SIZE])
    {
      var row: seq<Terrain> := [];
      var c := 0;
      while c < n
        invariant 0 <= c <= n
        invariant |row| == c
        invariant forall j :: 0 <= j < c ==>
          row[j] == BlockTerrain(draws[r / TERRAIN_BLOCK_SIZE][j / TERRAIN_BLOCK_SIZE])
      {
        BlockIndexInRange(n, r);
        BlockIndexInRange(n, c);
        row := row + [blockTerrain[r / TERRAIN_BLOCK_SIZE][c / TERRAIN_BLOCK_SIZE]];
        c := c + 1;
      }
      tg := tg + [row];
      r := r + 1;
    }
  }
}
