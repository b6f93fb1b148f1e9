/** The names an archive command is asked for by (internal/archive/cmd.go and
    internal/archive/target.go). */
module ArchiveNames {
  const BACKUP := "backup"
  const RESTORE := "restore"

  const NONE := "none"
  const ZSTD := "zstd"
  const GZIP := "gzip"
}
