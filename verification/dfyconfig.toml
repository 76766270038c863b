# Every Dafny file of the project is verified together.
includes = ["**/*.dfy"]
