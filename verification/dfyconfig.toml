# Verify the whole model: dafny verify dfyconfig.toml
includes = ["**/*.dfy"]
