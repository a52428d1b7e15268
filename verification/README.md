# kusto-tree: tree rendering of a cluster's databases and tables

`kusto_explorer.py` lists the databases of a Kusto cluster and the tables of
each, then prints them as a tree: a header line for the cluster, one line per
database and one line per table. Database lines start with a "tee" connector,
except the last database, which gets an "elbow". Each table line starts with a
continuation: a "pipe" under every database but the last, blank "space" under
the last one. After the continuation comes the same tee/elbow choice among
the database's tables.

The model has four modules:

- `TreeStyle` (`tree_style.dfy`): the `TreeStyle` constants with their real
  values. The colour prefixes are the ANSI codes behind colorama's `Fore` and
  `Style`. Two lemmas show that a line starting with one connector cannot start
  with the other, and the same for the two continuations.
- `PyDict` (`py_dict.dfy`): the insertion-ordered Python dict that `main`
  fills and `print_tree` iterates. It is a sequence of entries with no
  repeated key. It has `items()`, `get`, and `d[k] = v`, whose effect on key
  order and values is proved in `PutKeys` and `PutValues`.
- `TreeRender` (`tree_render.dfy`): `TreeLines` specifies everything
  `print_tree` prints. Lemmas give the exact line at each position and how
  the blocks fit together. `PrintTree` is `print_tree`'s two nested loops, with
  each `print` appending one line to the returned sequence. It is proved to
  produce exactly `TreeLines`.
- `Explorer` (`explorer.dfy`): the part of `main` after the database list is
  fetched. `BuildCatalog` is the loop that calls the table lister once per
  listed name and stores each reply under its name. `Explore` prints the
  "no databases" message for an empty list, and the tree otherwise.

Both listers query the cluster over the network, so they are parameters.
`databases` is what `get_databases` returned. `replies[i]` is what
`get_tables` returned on its `i`-th call. Indexing replies by call, not by
name, lets the model say what happens when a name is listed twice: the later
reply wins.

Names are rendered in the order the listers return them; nothing is sorted.
In the tree, a failed table query shows up only as an empty table list.

## Model

| member | source | states |
|---|---|---|
| `TreeStyle.ConnectorStart` | kusto_explorer.py:49-50 | TEE and ELBOW differ, and a line beginning with one of them does not begin with the other |
| `TreeStyle.ContinuationStart` | kusto_explorer.py:48-51 | PIPE and SPACE differ, and a line beginning with one of them does not begin with the other |
| `PyDict.PutKeys` | kusto_explorer.py:187 | `d[k] = v` keeps the existing keys in order; a new key is appended last, and an existing key keeps its place |
| `PyDict.Empty` | kusto_explorer.py:184 | `{}` is a dictionary with no entries (and so no repeated key) |
| `PyDict.Dict.Put` | kusto_explorer.py:187 | `d[k] = v` on a dictionary with no repeated key yields one with no repeated key; its effect on key order and values is stated by `PutKeys` and `PutValues` |
| `PyDict.PutValues` | kusto_explorer.py:187 | after `d[k] = v`, `k` maps to `v` and every other key maps to what it did before |
| `TreeRender.PrintTree` | kusto_explorer.py:135-166 | the nested loops print exactly `TreeLines` for the dict's items, in iteration order |
| `TreeRender.TreeShape` | kusto_explorer.py:144-166 | the output has 1 + (number of databases) + (total number of tables) lines, and line 0 is CLUSTER followed by the cluster URL |
| `TreeRender.EmptyTree` | kusto_explorer.py:144-148 | an empty dict prints only the cluster header |
| `TreeRender.BlocksAdjacent` | kusto_explorer.py:148-166 | the first database line follows the header; database `k+1`'s line comes right after database `k`'s line and its table lines; the last database's block ends the output |
| `TreeRender.DatabaseLineAt` | kusto_explorer.py:148-156 | database `k`'s line is at its position in iteration order and reads ELBOW (last database) or TEE (any other), then DATABASE, then its name |
| `TreeRender.TableLineAt` | kusto_explorer.py:159-166 | table `j` of database `k` comes right after the database line and the `j` earlier tables; it reads SPACE (last database) or PIPE (any other), then ELBOW (last table) or TEE (any other), then TABLE, then its name |
| `TreeRender.DatabaseConnector` | kusto_explorer.py:149-156 | a database line starts with ELBOW exactly when it is the last database's, and starts with TEE exactly when it is not |
| `TreeRender.TableConnector` | kusto_explorer.py:152-166 | a table line starts with SPACE exactly under the last database and with PIPE exactly under any other; after that prefix, it starts with ELBOW exactly for the database's last table and with TEE otherwise |
| `TreeRender.EmptyDatabase` | kusto_explorer.py:160-166 | a database with no tables contributes its own line and no table lines |
| `TreeRender.TwoDatabases` | kusto_explorer.py:135-166 | the tree for databases `analytics` (tables `events`, `users`) and `logs` (table `raw`), line by line |
| `Explorer.DistinctMembers` | kusto_explorer.py:184-187 | the distinct-names list of a prefix of the database list holds exactly the names in that prefix |
| `Explorer.DistinctOrder` | kusto_explorer.py:184-187 | the distinct-names list is ordered by each name's first occurrence in the database list |
| `Explorer.FilledKeys` | kusto_explorer.py:184-187 | after `count` turns of the loop, the dict's keys are the distinct names among the first `count` listed names, in first-occurrence order |
| `Explorer.CatalogKeys` | kusto_explorer.py:184-187 | the filled dict's keys are exactly the listed names, each once, ordered by first occurrence |
| `Explorer.CatalogValues` | kusto_explorer.py:184-187 | every listed name maps to the table lister's reply from the last call made for that name |
| `Explorer.BuildCatalog` | kusto_explorer.py:184-187 | the loop calls the table lister once per listed name, in list order, repeats included, and leaves behind the dict `Catalog` describes |
| `Explorer.Explore` | kusto_explorer.py:177-190 | an empty database list prints only the "No databases found" message and no tree; otherwise the tree of the filled dict is printed |
| `Explorer.ExploredTree` | kusto_explorer.py:184-190 | the rendered entries are the distinct listed names in first-occurrence order, each with the last reply for it; the tree has one line per distinct name besides the header and the table lines |

## Left out

- `connect_to_kusto`, and the queries inside `get_databases` and `get_tables`, are network calls into the Azure SDK. Their results are parameters (`databases`, `replies`). Both listers return an empty list on any exception; the model allows any list, empty included. On a failed query, the error line that `get_databases` (kusto_explorer.py:108) and `get_tables` (kusto_explorer.py:131) print to stdout comes before the message or the tree; the traceback they print (kusto_explorer.py:109, :132) goes to stderr; neither is part of `Explore`'s output.
- Logging setup and every log call, argument parsing, and `colorama_init` are process plumbing with no effect on the strings passed to `print`.
- The handling of `KeyboardInterrupt` and other exceptions in `main`, the traceback printing and `sys.exit`, are process control.
- The reset sequence that colorama's `autoreset` mode appends after each write is not modelled. The lines are the strings passed to `print`.
- The model of `main` starts after `get_databases` has returned. The cluster URL is taken as given, not parsed from the command line.
